/** The quartile engine: the linear-interpolation percentile `getPercentile`, the quartiles and
    interquartile range it yields, Tukey's inner (1.5·IQR) and outer (3·IQR) fences, the split
    of a sorted sample into normal values, moderate outliers and extreme outliers, and the
    whisker endpoints of the enhanced boxplot. */
module Quartiles {
  import opened Seqs
  import BasicStatistics

  /** A weight in [0, 1] scales a non-negative `m` to `pm` within [0, m]. */
  lemma ScaleWithin(p: real, m: real, pm: real)
    requires 0.0 <= p <= 1.0 && 0.0 <= m && pm == p * m
    ensures 0.0 <= pm <= m
  {
    BasicStatistics.MulMonotone(0.0, p, m, 0.0, pm);
    BasicStatistics.MulMonotone(p, 1.0, m, pm, m);
  }

  /** `p * (data.length - 1)`, the fractional position of the p-th percentile. */
  function Position(n: nat, p: real): (idx: real)
    requires n > 0 && 0.0 <= p <= 1.0
    ensures 0.0 <= idx <= (n - 1) as real
  {
    ScaleWithin(p, (n - 1) as real, p * ((n - 1) as real));
    p * ((n - 1) as real)
  }

  /** Positions grow with `p`. */
  lemma PositionMonotone(n: nat, p: real, q: real)
    requires n > 0 && 0.0 <= p <= q <= 1.0
    ensures Position(n, p) <= Position(n, q)
  {
    BasicStatistics.MulMonotone(p, q, (n - 1) as real, Position(n, p), Position(n, q));
  }

  /** `Math.floor(index)`: a valid index. */
  function LowerIndex(n: nat, p: real): (lower: nat)
    requires n > 0 && 0.0 <= p <= 1.0
    ensures lower < n && lower as real <= Position(n, p) < lower as real + 1.0
  {
    Position(n, p).Floor
  }

  /** `Math.ceil(index)`: a valid index, equal to the lower one or just after it. */
  function UpperIndex(n: nat, p: real): (upper: nat)
    requires n > 0 && 0.0 <= p <= 1.0
    ensures LowerIndex(n, p) <= upper <= LowerIndex(n, p) + 1 && upper < n
    ensures Position(n, p) <= upper as real < Position(n, p) + 1.0
    ensures upper == LowerIndex(n, p) <==> BasicStatistics.IsInteger(Position(n, p))
  {
    BasicStatistics.Ceil(Position(n, p))
  }

  /** `a * (1 - w) + b * w`, named `r`, lies between `a <= b` for a weight in [0, 1]. */
  lemma InterpolateBetween(a: real, b: real, w: real, r: real)
    requires a <= b && 0.0 <= w <= 1.0 && r == a * (1.0 - w) + b * w
    ensures a <= r <= b
  {
    assert r == a + w * (b - a);
    ScaleWithin(w, b - a, w * (b - a));
  }

  /** Interpolating between `a <= b` grows with the weight. */
  lemma InterpolateMonotone(a: real, b: real, v: real, w: real, rv: real, rw: real)
    requires a <= b && v <= w
    requires rv == a * (1.0 - v) + b * v && rw == a * (1.0 - w) + b * w
    ensures rv <= rw
  {
    assert rv == a + v * (b - a);
    assert rw == a + w * (b - a);
    BasicStatistics.MulMonotone(v, w, b - a, v * (b - a), w * (b - a));
  }

  /** `getPercentile(data, p)`: the value at position `p·(n-1)`, interpolated linearly between
      the two neighbouring elements when the position is fractional. On sorted data the result
      lies between those neighbours; p = 0 gives the first element and p = 1 the last. */
  function Percentile(data: seq<real>, p: real): (r: real)
    requires |data| > 0 && 0.0 <= p <= 1.0
    ensures Sorted(data) ==> data[LowerIndex(|data|, p)] <= r <= data[UpperIndex(|data|, p)]
    ensures p == 0.0 ==> r == data[0]
    ensures p == 1.0 ==> r == data[|data| - 1]
  {
    var lower := LowerIndex(|data|, p);
    var upper := UpperIndex(|data|, p);
    var weight := Position(|data|, p) - lower as real;
    if lower == upper then data[lower]
    else
      var r := data[lower] * (1.0 - weight) + data[upper] * weight;
      assert Sorted(data) ==> data[lower] <= r <= data[upper] by {
        if Sorted(data) { InterpolateBetween(data[lower], data[upper], weight, r); }
      }
      r
  }

  /** On sorted data the percentile never decreases as `p` grows. */
  lemma PercentileMonotone(data: seq<real>, p: real, q: real)
    requires |data| > 0 && 0.0 <= p <= q <= 1.0
    requires Sorted(data)
    ensures Percentile(data, p) <= Percentile(data, q)
  {
    var n := |data|;
    PositionMonotone(n, p, q);
    var lp, up := LowerIndex(n, p), UpperIndex(n, p);
    var lq, uq := LowerIndex(n, q), UpperIndex(n, q);
    assert lp <= lq;
    if lp < lq {
      assert up <= lq;
      assert data[up] <= data[lq];
    } else if lp == up {
      assert lq == lp;
    } else {
      assert lq == lp;
      assert Position(n, p) > lp as real;
      assert !BasicStatistics.IsInteger(Position(n, q));
      assert uq == up;
      var wp := Position(n, p) - lp as real;
      var wq := Position(n, q) - lq as real;
      InterpolateMonotone(data[lp], data[up], wp, wq, Percentile(data, p), Percentile(data, q));
    }
  }

  /** The two inner fences (1.5·IQR beyond the quartiles) and the two outer ones (3·IQR). */
  datatype Fences = Fences(innerLower: real, innerUpper: real, outerLower: real, outerUpper: real)

  /** The quartiles, the interquartile range and the fences derived from them. */
  datatype QuartileSummary = QuartileSummary(q1: real, q2: real, q3: real, iqr: real, fences: Fences)

  /** The fences around `q1` and `q3`. */
  function TukeyFences(q1: real, q3: real): (f: Fences)
    ensures q1 <= q3 ==>
      f.outerLower <= f.innerLower <= q1 && q3 <= f.innerUpper <= f.outerUpper
    ensures f.innerUpper - f.innerLower == 4.0 * (q3 - q1)
    ensures f.outerUpper - f.outerLower == 7.0 * (q3 - q1)
  {
    var iqr := q3 - q1;
    Fences(q1 - 1.5 * iqr, q3 + 1.5 * iqr, q1 - 3.0 * iqr, q3 + 3.0 * iqr)
  }

  /** Q1, Q2 and Q3 at p = 0.25, 0.5 and 0.75, with IQR = Q3 − Q1 and the fences around them. */
  function Summary(sorted: seq<real>): QuartileSummary
    requires |sorted| > 0
  {
    var q1 := Percentile(sorted, 0.25);
    var q3 := Percentile(sorted, 0.75);
    QuartileSummary(q1, Percentile(sorted, 0.5), q3, q3 - q1, TukeyFences(q1, q3))
  }

  /** On sorted data the quartiles are ordered within the sample's extremes, the IQR is
      non-negative and the fences nest around the box. */
  lemma QuartilesOrdered(sorted: seq<real>)
    requires |sorted| > 0 && Sorted(sorted)
    ensures var s := Summary(sorted);
      && sorted[0] <= s.q1 <= s.q2 <= s.q3 <= sorted[|sorted| - 1]
      && s.iqr >= 0.0
      && s.fences.outerLower <= s.fences.innerLower <= s.q1
      && s.q3 <= s.fences.innerUpper <= s.fences.outerUpper
  {
    PercentileMonotone(sorted, 0.0, 0.25);
    PercentileMonotone(sorted, 0.25, 0.5);
    PercentileMonotone(sorted, 0.5, 0.75);
    PercentileMonotone(sorted, 0.75, 1.0);
  }

  /** A value inside the inner fences. */
  predicate IsNormal(x: real, f: Fences) {
    x >= f.innerLower && x <= f.innerUpper
  }

  /** A value beyond an inner fence but not beyond the outer fence on that side. */
  predicate IsModerate(x: real, f: Fences) {
    (x < f.innerLower && x >= f.outerLower) || (x > f.innerUpper && x <= f.outerUpper)
  }

  /** A value beyond an outer fence. */
  predicate IsExtreme(x: real, f: Fences) {
    x < f.outerLower || x > f.outerUpper
  }

  /** With nested fences every value falls in exactly one of the three classes. */
  lemma ClassesExclusive(x: real, f: Fences)
    requires f.outerLower <= f.innerLower <= f.innerUpper <= f.outerUpper
    ensures ExactlyOne(IsNormal(x, f), IsModerate(x, f), IsExtreme(x, f))
  {
  }

  /** The three classes of `data`, each an order-preserving filter of it. */
  function NormalValues(data: seq<real>, f: Fences): (r: seq<real>)
    ensures |r| <= |data|
  {
    Filter(data, (x: real) => IsNormal(x, f))
  }

  function ModerateOutliers(data: seq<real>, f: Fences): (r: seq<real>)
    ensures |r| <= |data|
  {
    Filter(data, (x: real) => IsModerate(x, f))
  }

  function ExtremeOutliers(data: seq<real>, f: Fences): (r: seq<real>)
    ensures |r| <= |data|
  {
    Filter(data, (x: real) => IsExtreme(x, f))
  }

  /** The object `calculateQuartiles` stores in `stats.quartiles`. */
  datatype QuartileStats = QuartileStats(summary: QuartileSummary, moderate: seq<real>, extreme: seq<real>)

  /** `calculateQuartiles` on the sorted sample. */
  function QuartileStatsOf(sorted: seq<real>): (qs: QuartileStats)
    requires |sorted| > 0
    ensures qs.summary == Summary(sorted)
    ensures qs.moderate == ModerateOutliers(sorted, qs.summary.fences)
    ensures qs.extreme == ExtremeOutliers(sorted, qs.summary.fences)
    ensures forall i :: 0 <= i < |sorted| && IsModerate(sorted[i], qs.summary.fences) ==> sorted[i] in qs.moderate
    ensures forall i :: 0 <= i < |sorted| && IsExtreme(sorted[i], qs.summary.fences) ==> sorted[i] in qs.extreme
    ensures forall i :: 0 <= i < |qs.moderate| ==>
      qs.moderate[i] in sorted && IsModerate(qs.moderate[i], qs.summary.fences)
    ensures forall i :: 0 <= i < |qs.extreme| ==>
      qs.extreme[i] in sorted && IsExtreme(qs.extreme[i], qs.summary.fences)
  {
    var s := Summary(sorted);
    FilterMembers(sorted, (x: real) => IsModerate(x, s.fences));
    FilterMembers(sorted, (x: real) => IsExtreme(x, s.fences));
    QuartileStats(s, ModerateOutliers(sorted, s.fences), ExtremeOutliers(sorted, s.fences))
  }

  /** The object `calculateEnhancedStatistics` stores in `enhancedStats`. */
  datatype EnhancedStats = EnhancedStats(
    summary: QuartileSummary, whiskerLower: real, whiskerUpper: real,
    moderate: seq<real>, extreme: seq<real>, normal: seq<real>)

  /** `calculateEnhancedStatistics` on the sorted sample: the whiskers reach the least and the
      greatest value inside the inner fences, or fall back to Q1 and Q3 when there is none. */
  function EnhancedStatsOf(sorted: seq<real>): (es: EnhancedStats)
    requires |sorted| > 0
    ensures es.summary == Summary(sorted)
    ensures es.normal == NormalValues(sorted, es.summary.fences)
    ensures es.moderate == ModerateOutliers(sorted, es.summary.fences)
    ensures es.extreme == ExtremeOutliers(sorted, es.summary.fences)
    ensures es.normal != [] ==>
      es.whiskerLower in es.normal && es.whiskerUpper in es.normal &&
      forall i :: 0 <= i < |es.normal| ==> es.whiskerLower <= es.normal[i] <= es.whiskerUpper
    ensures es.normal == [] ==> es.whiskerLower == es.summary.q1 && es.whiskerUpper == es.summary.q3
  {
    var s := Summary(sorted);
    var normal := NormalValues(sorted, s.fences);
    var lo := if normal != [] then MinOf(normal) else s.q1;
    var hi := if normal != [] then MaxOf(normal) else s.q3;
    EnhancedStats(s, lo, hi, ModerateOutliers(sorted, s.fences), ExtremeOutliers(sorted, s.fences), normal)
  }

  /** On sorted data the normal values, the moderate outliers and the extreme outliers are
      sorted, pairwise disjoint, and together make up the sample. */
  lemma OutlierPartition(sorted: seq<real>)
    requires |sorted| > 0 && Sorted(sorted)
    ensures var f := Summary(sorted).fences;
      && multiset(NormalValues(sorted, f)) + multiset(ModerateOutliers(sorted, f))
         + multiset(ExtremeOutliers(sorted, f)) == multiset(sorted)
      && Sorted(NormalValues(sorted, f)) && Sorted(ModerateOutliers(sorted, f))
      && Sorted(ExtremeOutliers(sorted, f))
  {
    var f := Summary(sorted).fences;
    QuartilesOrdered(sorted);
    forall i | 0 <= i < |sorted|
      ensures ExactlyOne(IsNormal(sorted[i], f), IsModerate(sorted[i], f), IsExtreme(sorted[i], f))
    {
      ClassesExclusive(sorted[i], f);
    }
    FilterPartition3(sorted, (x: real) => IsNormal(x, f), (x: real) => IsModerate(x, f),
                     (x: real) => IsExtreme(x, f));
    FilterSorted(sorted, (x: real) => IsNormal(x, f));
    FilterSorted(sorted, (x: real) => IsModerate(x, f));
    FilterSorted(sorted, (x: real) => IsExtreme(x, f));
  }

  /** No value is in two classes. */
  lemma OutliersDisjoint(sorted: seq<real>, x: real)
    requires |sorted| > 0 && Sorted(sorted)
    ensures var f := Summary(sorted).fences;
      && (x in NormalValues(sorted, f) ==> x !in ModerateOutliers(sorted, f) && x !in ExtremeOutliers(sorted, f))
      && (x in ModerateOutliers(sorted, f) ==> x !in ExtremeOutliers(sorted, f))
  {
    var f := Summary(sorted).fences;
    QuartilesOrdered(sorted);
    FilterMembers(sorted, (x: real) => IsNormal(x, f));
    FilterMembers(sorted, (x: real) => IsModerate(x, f));
    FilterMembers(sorted, (x: real) => IsExtreme(x, f));
    ClassesExclusive(x, f);
  }

  /** Over exact reals a non-empty sorted sample always has a value inside the inner fences,
      so the whiskers never fall back to Q1 and Q3. (In the page the fallback runs only when
      infinite values make the IQR NaN; infinities are not part of this model.) */
  lemma NormalValuesNonEmpty(sorted: seq<real>)
    requires |sorted| > 0 && Sorted(sorted)
    ensures NormalValues(sorted, Summary(sorted).fences) != []
  {
    var n := |sorted|;
    var s := Summary(sorted);
    QuartilesOrdered(sorted);
    var j: nat;
    if n >= 3 {
      // Some element lies between Q1 and Q3: the index just above Q1's position is at or
      // below Q3's position, which is at least one further on.
      j := UpperIndex(n, 0.25);
      assert j <= LowerIndex(n, 0.75);
      assert s.q1 <= sorted[j] <= s.q3;
    } else {
      // With one or two values the first one is inside the inner fences.
      j := 0;
      assert n == 2 ==> s.q1 == 0.75 * sorted[0] + 0.25 * sorted[1];
      assert n == 2 ==> s.q3 == 0.25 * sorted[0] + 0.75 * sorted[1];
    }
    assert IsNormal(sorted[j], s.fences);
    FilterMembers(sorted, (x: real) => IsNormal(x, s.fences));
    assert sorted[j] in NormalValues(sorted, s.fences);
  }

  /** The whiskers are sample values inside the inner fences, the lower one at most the upper. */
  lemma WhiskersWithinFences(sorted: seq<real>)
    requires |sorted| > 0 && Sorted(sorted)
    ensures var es := EnhancedStatsOf(sorted);
      && es.whiskerLower in sorted && es.whiskerUpper in sorted
      && es.whiskerLower <= es.whiskerUpper
      && es.summary.fences.innerLower <= es.whiskerLower && es.whiskerUpper <= es.summary.fences.innerUpper
  {
    var es := EnhancedStatsOf(sorted);
    NormalValuesNonEmpty(sorted);
    FilterMembers(sorted, (x: real) => IsNormal(x, es.summary.fences));
  }
}
