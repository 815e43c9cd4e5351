/** The page's small decision rules: the dispersion band of the coefficient of variation
    (`updateDispersionMeasures`), and the river-crossing analysis (`analyzeRiverData`) with its
    own coefficient-of-variation verdict and its risk tier from the share of deep points. */
module Decisions {
  import opened Wrappers
  import opened Seqs
  import opened BasicStatistics
  import Parser

  /** The three verdicts every rule here chooses between. */
  datatype Level = Low | Moderate | High

  /** Position of a verdict on the scale low < moderate < high. */
  function Rank(l: Level): nat {
    match l
    case Low => 0
    case Moderate => 1
    case High => 2
  }

  /** `cv < 15` is low dispersion, `cv <= 35` moderate, anything else high. Both comparisons
      are false for NaN, so NaN lands in the high band; `-Infinity` is below 15. */
  function DispersionBand(cv: Cv): (b: Level)
    ensures b == Low <==> cv == NegativeInfinity || (cv.Finite? && cv.value < 15.0)
    ensures b == High <==> cv == NaN || cv == PositiveInfinity || (cv.Finite? && cv.value > 35.0)
  {
    match cv
    case Finite(v) => if v < 15.0 then Low else if v <= 35.0 then Moderate else High
    case NaN => High
    case PositiveInfinity => High
    case NegativeInfinity => Low
  }

  /** The river verdict: `cv > 35` is high, `cv > 15` moderate, anything else low. NaN fails
      both comparisons and counts as low. */
  function RiverCvBand(cv: Cv): (b: Level)
    ensures b == High <==> cv == PositiveInfinity || (cv.Finite? && cv.value > 35.0)
    ensures b == Low <==> cv == NaN || cv == NegativeInfinity || (cv.Finite? && cv.value <= 15.0)
  {
    match cv
    case Finite(v) => if v > 35.0 then High else if v > 15.0 then Moderate else Low
    case NaN => Low
    case PositiveInfinity => High
    case NegativeInfinity => Low
  }

  /** A larger finite coefficient of variation never gives a lower band, in either rule. */
  lemma BandsMonotone(u: real, v: real)
    requires u <= v
    ensures Rank(DispersionBand(Finite(u))) <= Rank(DispersionBand(Finite(v)))
    ensures Rank(RiverCvBand(Finite(u))) <= Rank(RiverCvBand(Finite(v)))
  {
  }

  /** The two rules agree on every finite value except exactly 15, which the dispersion section
      calls moderate and the river section low; they also disagree on NaN (a zero mean with
      zero deviation), which one calls high and the other low. */
  lemma BandsAgreeExceptAtFifteen(cv: Cv)
    ensures DispersionBand(cv) == RiverCvBand(cv) <==> cv != NaN && cv != Finite(15.0)
  {
  }

  /** `d > safeHeight`; `safeHeight` is `None` when `parseFloat` gave NaN, and then no depth
      exceeds it. */
  predicate Exceeds(d: real, safeHeight: Option<real>) {
    safeHeight.Some? && d > safeHeight.value
  }

  /** The number of depths greater than the safe height. */
  function UnsafePoints(depths: seq<real>, safeHeight: Option<real>): (u: nat)
    ensures u <= |depths|
  {
    |Filter(depths, (d: real) => Exceeds(d, safeHeight))|
  }

  /** `(unsafePoints / n) * 100`. */
  function PercentageUnsafe(unsafe: nat, n: nat): real
    requires n > 0
  {
    unsafe as real / (n as real) * 100.0
  }

  /** `percentageUnsafe > 20` is high risk, `> 0` moderate, anything else low. */
  function RiskTier(unsafe: nat, n: nat): Level
    requires n > 0
  {
    var pct := PercentageUnsafe(unsafe, n);
    if pct > 20.0 then High else if pct > 0.0 then Moderate else Low
  }

  /** `(u / n) * 100 > t` exactly when `100·u > t·n`. */
  lemma PercentAbove(u: real, n: real, t: real)
    requires n > 0.0
    ensures u / n * 100.0 > t <==> 100.0 * u > t * n
  {
    var q := u / n;
    assert q * n == u;
    if q * 100.0 > t {
      MulStrict(t, q * 100.0, n, t * n, (q * 100.0) * n);
      assert (q * 100.0) * n == 100.0 * (q * n);
    } else {
      MulMonotone(q * 100.0, t, n, (q * 100.0) * n, t * n);
      assert (q * 100.0) * n == 100.0 * (q * n);
    }
  }

  /** The tier in counts: low when no point is unsafe, high when more than a fifth are
      (`5·unsafe > n`), moderate in between. */
  lemma RiskTierCounts(unsafe: nat, n: nat)
    requires n > 0
    ensures RiskTier(unsafe, n) == Low <==> unsafe == 0
    ensures RiskTier(unsafe, n) == High <==> 5 * unsafe > n
    ensures RiskTier(unsafe, n) == Moderate <==> 0 < unsafe && 5 * unsafe <= n
  {
    PercentAbove(unsafe as real, n as real, 20.0);
    PercentAbove(unsafe as real, n as real, 0.0);
  }

  /** The risk tier of a set of depths: low exactly when no depth exceeds the safe height,
      high exactly when more than 20% do, moderate otherwise. */
  lemma RiskTierOfDepths(depths: seq<real>, safeHeight: Option<real>)
    requires |depths| > 0
    ensures var tier := RiskTier(UnsafePoints(depths, safeHeight), |depths|);
      && (tier == Low <==> forall i :: 0 <= i < |depths| ==> !Exceeds(depths[i], safeHeight))
      && (tier == High <==> 5 * UnsafePoints(depths, safeHeight) > |depths|)
      && (tier == Moderate <==> (exists i :: 0 <= i < |depths| && Exceeds(depths[i], safeHeight))
                                && 5 * UnsafePoints(depths, safeHeight) <= |depths|)
  {
    var f := (d: real) => Exceeds(d, safeHeight);
    var unsafe := Filter(depths, f);
    RiskTierCounts(|unsafe|, |depths|);
    FilterMembers(depths, f);
    if |unsafe| > 0 {
      assert f(unsafe[0]) && unsafe[0] in depths;
    }
    if i :| 0 <= i < |depths| && Exceeds(depths[i], safeHeight) {
      assert f(depths[i]);
      assert depths[i] in unsafe;
    }
  }

  /** A NaN safe height makes every comparison false: whatever the depths, the risk is low. */
  lemma NaNSafeHeightIsLowRisk(depths: seq<real>)
    requires |depths| > 0
    ensures RiskTier(UnsafePoints(depths, None), |depths|) == Low
  {
    RiskTierOfDepths(depths, None);
  }

  /** What `analyzeRiverData` shows: the summary of the depths, the coefficient-of-variation
      verdict, the number of unsafe points and the risk tier. */
  datatype RiverReport = RiverReport(
    mean: real, stdDev: real, cv: Cv, range: real,
    decision: Level, unsafePoints: nat, risk: Level)

  /** `analyzeRiverData` on the depth field and the safe-height field. The safe height is parsed
      before the depths are checked; blank depths and depths with no number are the two errors. */
  function AnalyzeRiverData(
    input: string, safeHeightText: string, parse: string -> Option<real>, sqrt: real -> real)
    : (r: Result<RiverReport, Parser.InputError>)
    ensures r.Success? <==> Parser.ReadSample(input, parse).Success?
    ensures r.Failure? ==> r.error == Parser.ReadSample(input, parse).error
  {
    var safeHeight := parse(safeHeightText);
    match Parser.ReadSample(input, parse)
    case Failure(e) => Failure(e)
    case Success(depths) =>
      var mean := Mean(depths);
      var stdDev := sqrt(Variance(depths));
      var cv := CoefficientOfVariation(stdDev, mean);
      var unsafe := UnsafePoints(depths, safeHeight);
      Success(RiverReport(mean, stdDev, cv, MaxOf(depths) - MinOf(depths),
                          RiverCvBand(cv), unsafe, RiskTier(unsafe, |depths|)))
  }

  /** A successful river analysis reports a low risk exactly when no parsed depth exceeds the
      parsed safe height, and a high risk exactly when more than a fifth of them do; its range
      is non-negative and its mean lies between the shallowest and deepest point. */
  lemma RiverReportMeaning(
    input: string, safeHeightText: string, parse: string -> Option<real>, sqrt: real -> real)
    requires Parser.ReadSample(input, parse).Success?
    ensures var depths := Parser.Numbers(input, parse);
      var report := AnalyzeRiverData(input, safeHeightText, parse, sqrt).value;
      && (report.risk == Low <==>
            forall i :: 0 <= i < |depths| ==> !Exceeds(depths[i], parse(safeHeightText)))
      && (report.risk == High <==> 5 * report.unsafePoints > |depths|)
      && report.range >= 0.0
      && MinOf(depths) <= report.mean <= MaxOf(depths)
  {
    var depths := Parser.Numbers(input, parse);
    RiskTierOfDepths(depths, parse(safeHeightText));
    MeanBetween(depths);
    assert MinOf(depths) <= depths[0] <= MaxOf(depths);
  }
}
