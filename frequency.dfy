/** The grouped frequency table of `createFrequencyDistribution`: k classes of equal width
    starting at the sample minimum, half-open except the last, which is closed; each row holds
    its bounds, its frequency, its relative frequency and its midpoint, and a second pass adds
    the cumulative frequency and cumulative relative frequency. */
module Frequency {
  import opened Seqs
  import BasicStatistics

  /** The classes of the table: `k` classes of width `amplitude` from `min`. */
  datatype Classes = Classes(min: real, amplitude: real, k: nat)

  /** `min + i * amplitude`. */
  function LowerBound(c: Classes, i: nat): real {
    c.min + (i as real) * c.amplitude
  }

  /** `min + (i + 1) * amplitude`. */
  function UpperBound(c: Classes, i: nat): real {
    c.min + ((i + 1) as real) * c.amplitude
  }

  /** Membership of class `i`: `[lower, upper)`, or `[lower, upper]` for the last class. */
  predicate InClass(x: real, c: Classes, i: nat) {
    if i == c.k - 1 then LowerBound(c, i) <= x <= UpperBound(c, i)
    else LowerBound(c, i) <= x < UpperBound(c, i)
  }

  /** With a non-negative width each class ends where a later one can start at the earliest. */
  lemma BoundsOrdered(c: Classes, i: nat, j: nat)
    requires c.amplitude >= 0.0 && i < j
    ensures LowerBound(c, i) <= UpperBound(c, i) <= LowerBound(c, j)
  {
    BasicStatistics.MulMonotone(i as real, (i + 1) as real, c.amplitude,
                                (i as real) * c.amplitude, ((i + 1) as real) * c.amplitude);
    BasicStatistics.MulMonotone((i + 1) as real, j as real, c.amplitude,
                                ((i + 1) as real) * c.amplitude, (j as real) * c.amplitude);
  }

  /** No value lies in two classes. */
  lemma ClassesDisjoint(x: real, c: Classes, i: nat, j: nat)
    requires c.amplitude >= 0.0 && i < j < c.k
    ensures !(InClass(x, c, i) && InClass(x, c, j))
  {
    BoundsOrdered(c, i, j);
  }

  /** The class a value of [min, min + k·amplitude] falls in: `floor((x − min) / amplitude)`,
      kept below `k`, or the last class when the width is zero. */
  function ClassOf(x: real, c: Classes): (i: nat)
    requires c.k >= 1 && c.amplitude >= 0.0
    requires c.min <= x <= c.min + (c.k as real) * c.amplitude
    ensures i < c.k && InClass(x, c, i)
  {
    var a := c.amplitude;
    if a == 0.0 then
      assert x == c.min;
      c.k - 1
    else
      var q := (x - c.min) / a;
      var f := q.Floor;
      assert f >= 0;
      if f >= c.k then
        // Only x = min + k·a gets here; it is the upper end of the closed last class.
        BasicStatistics.MulMonotone((c.k - 1) as real, q, a, ((c.k - 1) as real) * a, x - c.min);
        c.k - 1
      else
        BasicStatistics.MulMonotone(f as real, q, a, (f as real) * a, x - c.min);
        BasicStatistics.MulStrict(q, (f + 1) as real, a, x - c.min, ((f + 1) as real) * a);
        f
  }

  /** How many values fall in class `i`. */
  function ClassFrequency(data: seq<real>, c: Classes, i: nat): (f: nat)
    ensures f <= |data|
  {
    |Filter(data, (x: real) => InClass(x, c, i))|
  }

  /** A row of `frequencyData`: the interval string is left out; `cumFreq` and `cumRelFreq` are
      zero until the cumulative pass writes them. */
  datatype Row = Row(
    lowerBound: real, upperBound: real, frequency: nat, relativeFreq: real, midpoint: real,
    cumFreq: nat, cumRelFreq: real)

  /** The row the first loop pushes for class `i`. */
  function ClassRow(data: seq<real>, c: Classes, i: nat): (r: Row)
    requires |data| > 0
    ensures r.frequency == ClassFrequency(data, c, i)
  {
    var lo, hi := LowerBound(c, i), UpperBound(c, i);
    var f := ClassFrequency(data, c, i);
    Row(lo, hi, f, f as real / (|data| as real), (lo + hi) / 2.0, 0, 0.0)
  }

  /** A row's relative frequency is its share of the sample: frequency / n, between 0 and 1. */
  lemma ClassRowShare(data: seq<real>, c: Classes, i: nat)
    requires |data| > 0
    ensures var r := ClassRow(data, c, i);
      && r.relativeFreq * (|data| as real) == r.frequency as real
      && 0.0 <= r.relativeFreq <= 1.0
  {
    var f := ClassFrequency(data, c, i);
    var n := |data| as real;
    BasicStatistics.DivUpperBound(1.0, f as real, n);
    BasicStatistics.DivLowerBound(0.0, f as real, n);
  }

  /** The frequency of class `i` is the number of positions of the sample whose value lies in
      the class. */
  lemma {:induction false} ClassFrequencyCounts(data: seq<real>, c: Classes, i: nat)
    ensures ClassFrequency(data, c, i) == |set j | 0 <= j < |data| && InClass(data[j], c, i)|
    decreases |data|
  {
    var all := set j | 0 <= j < |data| && InClass(data[j], c, i);
    if data == [] {
      assert all == {};
    } else {
      var n := |data| - 1;
      var init := data[..n];
      ClassFrequencyCounts(init, c, i);
      var before := set j | 0 <= j < n && InClass(init[j], c, i);
      var last: set<int> := if InClass(data[n], c, i) then {n} else {};
      assert all == before + last by {
        forall j | j in all ensures j in before + last {
          if j < n { assert init[j] == data[j]; }
        }
        forall j | j in before ensures j in all {
          assert init[j] == data[j];
        }
      }
      assert before !! last;
    }
  }

  /** What a row of the first loop holds: the bounds of class `i`, its midpoint halfway
      between them, the number of values in the class, and that number's share of the sample. */
  lemma ClassRowMeaning(data: seq<real>, c: Classes, i: nat)
    requires |data| > 0
    ensures var r := ClassRow(data, c, i);
      && r.lowerBound == LowerBound(c, i) && r.upperBound == UpperBound(c, i)
      && r.midpoint - r.lowerBound == r.upperBound - r.midpoint
      && r.frequency == |set j | 0 <= j < |data| && InClass(data[j], c, i)|
      && r.relativeFreq * (|data| as real) == r.frequency as real
      && 0.0 <= r.relativeFreq <= 1.0
  {
    ClassFrequencyCounts(data, c, i);
    ClassRowShare(data, c, i);
  }

  /** The rows for classes `0 .. m-1`, before the cumulative pass. */
  function RowsUpTo(data: seq<real>, c: Classes, m: nat): (rows: seq<Row>)
    requires |data| > 0
    ensures |rows| == m
    ensures forall i :: 0 <= i < m ==> rows[i] == ClassRow(data, c, i)
  {
    if m == 0 then [] else RowsUpTo(data, c, m - 1) + [ClassRow(data, c, m - 1)]
  }

  /** Sum of the frequencies of `rows[..m]`. */
  function SumFreq(rows: seq<Row>, m: nat): nat
    requires m <= |rows|
  {
    if m == 0 then 0 else SumFreq(rows, m - 1) + rows[m - 1].frequency
  }

  /** Sum of the relative frequencies of `rows[..m]`. */
  function SumRelFreq(rows: seq<Row>, m: nat): real
    requires m <= |rows|
  {
    if m == 0 then 0.0 else SumRelFreq(rows, m - 1) + rows[m - 1].relativeFreq
  }

  /** The rows after the `forEach` pass: row i's cumulative columns are the sums over rows
      0..i, and no other field changes. */
  function WithCumulative(rows: seq<Row>): (out: seq<Row>)
    ensures |out| == |rows|
  {
    seq(|rows|, i requires 0 <= i < |rows| =>
      rows[i].(cumFreq := SumFreq(rows, i + 1), cumRelFreq := SumRelFreq(rows, i + 1)))
  }

  /** The table `createFrequencyDistribution` leaves in `frequencyData`. */
  function Table(data: seq<real>, c: Classes): (rows: seq<Row>)
    requires |data| > 0
    ensures |rows| == c.k
  {
    WithCumulative(RowsUpTo(data, c, c.k))
  }

  /** The cumulative columns are prefix sums of the plain ones: they start at the first row's
      values, grow by each row's own values, and never decrease. */
  lemma CumulativePrefixSums(rows: seq<Row>)
    ensures var out := WithCumulative(rows);
      && (forall i :: 0 <= i < |rows| ==>
           out[i].lowerBound == rows[i].lowerBound && out[i].upperBound == rows[i].upperBound
           && out[i].frequency == rows[i].frequency && out[i].relativeFreq == rows[i].relativeFreq
           && out[i].midpoint == rows[i].midpoint)
      && (|rows| > 0 ==> out[0].cumFreq == rows[0].frequency
                         && out[0].cumRelFreq == rows[0].relativeFreq)
      && (forall i :: 0 < i < |rows| ==>
           out[i].cumFreq == out[i - 1].cumFreq + rows[i].frequency
           && out[i].cumRelFreq == out[i - 1].cumRelFreq + rows[i].relativeFreq)
      && (forall i, j :: 0 <= i <= j < |rows| ==> out[i].cumFreq <= out[j].cumFreq)
  {
    var out := WithCumulative(rows);
    if |rows| > 0 {
      assert SumFreq(rows, 1) == rows[0].frequency;
      assert SumRelFreq(rows, 1) == rows[0].relativeFreq;
    }
    forall i, j | 0 <= i <= j < |rows| ensures out[i].cumFreq <= out[j].cumFreq {
      SumFreqMonotone(rows, i + 1, j + 1);
    }
  }

  /** In the table the cumulative relative frequency never decreases either, because every
      relative frequency is a non-negative share. */
  lemma TableCumulativeShareMonotone(data: seq<real>, c: Classes)
    requires |data| > 0
    ensures var t := Table(data, c);
      forall i, j :: 0 <= i <= j < |t| ==> t[i].cumRelFreq <= t[j].cumRelFreq
  {
    var rows := RowsUpTo(data, c, c.k);
    SharesNonNegative(data, c, rows);
    CumulativeShareMonotone(rows);
  }

  /** Every row's relative frequency is at least 0. */
  lemma SharesNonNegative(data: seq<real>, c: Classes, rows: seq<Row>)
    requires |data| > 0 && rows == RowsUpTo(data, c, c.k)
    ensures forall i :: 0 <= i < |rows| ==> rows[i].relativeFreq >= 0.0
  {
    forall i | 0 <= i < |rows| ensures rows[i].relativeFreq >= 0.0 {
      ClassRowShare(data, c, i);
    }
  }

  /** Running totals of non-negative shares never decrease. */
  lemma CumulativeShareMonotone(rows: seq<Row>)
    requires forall i :: 0 <= i < |rows| ==> rows[i].relativeFreq >= 0.0
    ensures var out := WithCumulative(rows);
      forall i, j :: 0 <= i <= j < |out| ==> out[i].cumRelFreq <= out[j].cumRelFreq
  {
    forall i, j | 0 <= i <= j < |rows|
      ensures WithCumulative(rows)[i].cumRelFreq <= WithCumulative(rows)[j].cumRelFreq
    {
      SumRelFreqMonotone(rows, i + 1, j + 1);
    }
  }

  /** Frequency sums grow with the prefix. */
  lemma {:induction false} SumFreqMonotone(rows: seq<Row>, m: nat, m': nat)
    requires m <= m' <= |rows|
    ensures SumFreq(rows, m) <= SumFreq(rows, m')
    decreases m'
  {
    if m < m' {
      SumFreqMonotone(rows, m, m' - 1);
    }
  }

  /** With non-negative relative frequencies the cumulative relative frequency never decreases. */
  lemma {:induction false} SumRelFreqMonotone(rows: seq<Row>, m: nat, m': nat)
    requires m <= m' <= |rows|
    requires forall i :: 0 <= i < |rows| ==> rows[i].relativeFreq >= 0.0
    ensures SumRelFreq(rows, m) <= SumRelFreq(rows, m')
    decreases m'
  {
    if m < m' {
      SumRelFreqMonotone(rows, m, m' - 1);
    }
  }

  /** The number of classes among `0 .. m-1` that contain `x`. */
  function Hits(x: real, c: Classes, m: nat): nat {
    if m == 0 then 0 else Hits(x, c, m - 1) + (if InClass(x, c, m - 1) then 1 else 0)
  }

  /** A value is in at most one class; it is in one exactly when some class contains it. */
  lemma {:induction false} HitsAtMostOne(x: real, c: Classes, m: nat)
    requires c.amplitude >= 0.0 && m <= c.k
    ensures Hits(x, c, m) <= 1
    ensures Hits(x, c, m) == 1 <==> exists i :: 0 <= i < m && InClass(x, c, i)
  {
    if m > 0 {
      HitsAtMostOne(x, c, m - 1);
      if InClass(x, c, m - 1) {
        forall i | 0 <= i < m - 1 ensures !InClass(x, c, i) {
          ClassesDisjoint(x, c, i, m - 1);
        }
      }
    }
  }

  /** The frequencies of classes `0 .. m-1` added up. */
  function Count(data: seq<real>, c: Classes, m: nat): nat {
    if m == 0 then 0 else Count(data, c, m - 1) + ClassFrequency(data, c, m - 1)
  }

  /** Appending a value adds the number of classes it falls in. */
  lemma {:induction false} CountSnoc(data: seq<real>, x: real, c: Classes, m: nat)
    ensures Count(data + [x], c, m) == Count(data, c, m) + Hits(x, c, m)
  {
    if m > 0 {
      CountSnoc(data, x, c, m - 1);
      var f := (y: real) => InClass(y, c, m - 1);
      FilterAppend(data, [x], f);
      assert Filter([x], f) == (if f(x) then [x] else []) by {
        assert [x][..0] == [];
      }
    }
  }

  /** No value is counted twice, so the frequencies add up to at most n. */
  lemma {:induction false} CountAtMost(data: seq<real>, c: Classes)
    requires c.amplitude >= 0.0
    ensures Count(data, c, c.k) <= |data|
    decreases |data|
  {
    if |data| > 0 {
      var init, x := data[..|data| - 1], data[|data| - 1];
      assert init + [x] == data;
      CountAtMost(init, c);
      CountSnoc(init, x, c, c.k);
      HitsAtMostOne(x, c, c.k);
    } else {
      CountEmpty(c, c.k);
    }
  }

  /** An empty sample has no frequencies. */
  lemma {:induction false} CountEmpty(c: Classes, m: nat)
    ensures Count([], c, m) == 0
  {
    if m > 0 {
      CountEmpty(c, m - 1);
    }
  }

  /** Every value lies in [min, min + k·amplitude], the span of the classes. */
  predicate Spans(c: Classes, data: seq<real>) {
    forall i :: 0 <= i < |data| ==> c.min <= data[i] <= c.min + (c.k as real) * c.amplitude
  }

  /** When every value lies in [min, min + k·amplitude], every value is counted once, so the
      frequencies add up to n. */
  lemma {:induction false} CountCovered(data: seq<real>, c: Classes)
    requires c.k >= 1 && c.amplitude >= 0.0
    requires Spans(c, data)
    ensures Count(data, c, c.k) == |data|
    decreases |data|
  {
    if |data| > 0 {
      var init, x := data[..|data| - 1], data[|data| - 1];
      assert init + [x] == data;
      CountCovered(init, c);
      CountSnoc(init, x, c, c.k);
      HitsAtMostOne(x, c, c.k);
      assert InClass(x, c, ClassOf(x, c));
    } else {
      CountEmpty(c, c.k);
    }
  }

  /** The rows' frequency column adds up to `Count`, and the relative frequencies to `Count / n`. */
  lemma RowSums(data: seq<real>, c: Classes, m: nat)
    requires |data| > 0
    ensures SumFreq(RowsUpTo(data, c, m), m) == Count(data, c, m)
    ensures SumRelFreq(RowsUpTo(data, c, m), m) == Count(data, c, m) as real / (|data| as real)
  {
    RowFreqSums(data, c, m);
    var rows := RowsUpTo(data, c, m);
    var n := |data| as real;
    assert forall i :: 0 <= i < |rows| ==> rows[i].relativeFreq == rows[i].frequency as real / n;
    SharesSum(rows, m, n);
  }

  /** The frequency column of the first `m` rows adds up to `Count`. */
  lemma {:induction false} RowFreqSums(data: seq<real>, c: Classes, m: nat)
    requires |data| > 0
    ensures SumFreq(RowsUpTo(data, c, m), m) == Count(data, c, m)
  {
    if m > 0 {
      RowFreqSums(data, c, m - 1);
      var rows := RowsUpTo(data, c, m);
      var prev := RowsUpTo(data, c, m - 1);
      assert rows[..m - 1] == prev;
      PrefixSums(rows, prev, m - 1);
      assert rows[m - 1] == ClassRow(data, c, m - 1);
    }
  }

  /** When each row's relative frequency is its frequency over `n`, so is their sum. */
  lemma {:induction false} SharesSum(rows: seq<Row>, m: nat, n: real)
    requires m <= |rows| && n > 0.0
    requires forall i :: 0 <= i < |rows| ==> rows[i].relativeFreq == rows[i].frequency as real / n
    ensures SumRelFreq(rows, m) == SumFreq(rows, m) as real / n
  {
    if m > 0 {
      SharesSum(rows, m - 1, n);
      DivAdd(SumFreq(rows, m - 1) as real, rows[m - 1].frequency as real, n);
    }
  }

  /** Sums over a prefix depend only on that prefix. */
  lemma {:induction false} PrefixSums(rows: seq<Row>, prefix: seq<Row>, m: nat)
    requires m <= |prefix| <= |rows| && prefix == rows[..|prefix|]
    ensures SumFreq(rows, m) == SumFreq(prefix, m) && SumRelFreq(rows, m) == SumRelFreq(prefix, m)
  {
    if m > 0 {
      PrefixSums(rows, prefix, m - 1);
    }
  }

  /** `a / n + b / n == (a + b) / n`. */
  lemma DivAdd(a: real, b: real, n: real)
    requires n > 0.0
    ensures a / n + b / n == (a + b) / n
  {
  }

  /** The table has k rows; its frequencies add up to at most n, and its last cumulative
      frequency is their total. */
  lemma TableTotals(data: seq<real>, c: Classes)
    requires |data| > 0 && c.amplitude >= 0.0 && c.k >= 1
    ensures var t := Table(data, c);
      && |t| == c.k
      && (forall i :: 0 <= i < c.k ==>
            t[i].lowerBound == LowerBound(c, i) && t[i].upperBound == UpperBound(c, i)
            && t[i].frequency == ClassFrequency(data, c, i))
      && t[c.k - 1].cumFreq == Count(data, c, c.k) <= |data|
      && t[c.k - 1].cumRelFreq == Count(data, c, c.k) as real / (|data| as real)
  {
    RowSums(data, c, c.k);
    CountAtMost(data, c);
  }

  /** The classes `createFrequencyDistribution` reads from `stats`: `min`, `amplitude` and `k`. */
  function StatsClasses(st: BasicStatistics.BasicStats): Classes {
    Classes(st.min, st.amplitude, st.k)
  }

  /** `k` classes from `lo`, of the width `calculateBasicStats` derives from the range
      `hi - lo`: a ceiling when `integral`, hundredths otherwise. */
  function WidthClasses(lo: real, hi: real, k: nat, integral: bool): (c: Classes)
    requires k >= 1 && lo <= hi
    ensures c.k == k && c.min == lo && c.amplitude >= 0.0
  {
    Classes(lo, BasicStatistics.Amplitude(hi - lo, k, integral), k)
  }

  /** The classes computed from the sample itself: from its minimum, for its range and for
      whether its values are all integers. */
  function SampleClasses(data: seq<real>, k: nat): (c: Classes)
    requires |data| > 0 && k >= 1
    ensures c.k == k && c.min == MinOf(data) && c.amplitude >= 0.0
  {
    assert MinOf(data) <= data[0] <= MaxOf(data);
    WidthClasses(MinOf(data), MaxOf(data), k, BasicStatistics.AllIntegers(data))
  }

  /** `calculateBasicStats` hands `createFrequencyDistribution` exactly these classes. */
  lemma StatsClassesFromSample(data: seq<real>, k: nat, sqrt: real -> real)
    requires |data| > 0 && k >= 1
    ensures StatsClasses(BasicStatistics.BasicStatsOf(data, k, sqrt)) == SampleClasses(data, k)
  {
  }

  /** With all-integer data or a zero range the classes reach from the minimum to at least the
      maximum, so they span the whole sample. */
  lemma ClassesSpanSample(data: seq<real>, k: nat)
    requires |data| > 0 && k >= 1
    requires BasicStatistics.AllIntegers(data) || MaxOf(data) == MinOf(data)
    ensures Spans(SampleClasses(data, k), data)
  {
    assert MinOf(data) <= data[0] <= MaxOf(data);
    SpanFromExtremes(data, k, MinOf(data), MaxOf(data), BasicStatistics.AllIntegers(data));
  }

  /** The classes of the width `calculateBasicStats` derives from any bounds `lo <= hi` of the
      sample span it when the width is a ceiling or the bounds coincide. */
  lemma SpanFromExtremes(data: seq<real>, k: nat, lo: real, hi: real, integral: bool)
    requires k >= 1 && lo <= hi && (integral || hi == lo)
    requires forall i :: 0 <= i < |data| ==> lo <= data[i] <= hi
    ensures Spans(WidthClasses(lo, hi, k, integral), data)
  {
    var c := WidthClasses(lo, hi, k, integral);
    var span := (k as real) * c.amplitude;
    WidthCoversRange(hi - lo, k, integral, c.amplitude, span);
    SpanFromBounds(data, c, lo, hi, span);
  }

  /** `k` classes of the chosen width cover the range when the width is a ceiling, or when the
      range is zero. */
  lemma WidthCoversRange(range: real, k: nat, allIntegers: bool, a: real, span: real)
    requires k >= 1 && range >= 0.0 && (allIntegers || range == 0.0)
    requires a == BasicStatistics.Amplitude(range, k, allIntegers) && span == (k as real) * a
    ensures range <= span
  {
    BasicStatistics.AmplitudeBounds(range, k, allIntegers);
    if !allIntegers {
      BasicStatistics.MulMonotone(0.0, k as real, a, 0.0, span);
    }
  }

  /** Values between `lo = min` and `hi <= min + k·amplitude` lie in the classes' span. */
  lemma SpanFromBounds(data: seq<real>, c: Classes, lo: real, hi: real, span: real)
    requires forall i :: 0 <= i < |data| ==> lo <= data[i] <= hi
    requires span == (c.k as real) * c.amplitude && c.min == lo && hi - lo <= span
    ensures Spans(c, data)
  {
  }

  /** For the classes `calculateBasicStats` chooses, every value is counted exactly once when the
      data are all integers or the range is zero: the frequencies add up to n, and the relative
      frequencies to 1. */
  lemma EveryValueCounted(data: seq<real>, k: nat)
    requires |data| > 0 && k >= 1
    requires BasicStatistics.AllIntegers(data) || MaxOf(data) == MinOf(data)
    ensures Table(data, SampleClasses(data, k))[k - 1].cumFreq == |data|
    ensures Table(data, SampleClasses(data, k))[k - 1].cumRelFreq == 1.0
  {
    var c := SampleClasses(data, k);
    ClassesSpanSample(data, k);
    TableCoversSample(data, c);
  }

  /** The same for the table `createFrequencyDistribution` builds from `stats`. */
  lemma StatsTableCountsEveryValue(data: seq<real>, k: nat, sqrt: real -> real)
    requires |data| > 0 && k >= 1
    requires BasicStatistics.AllIntegers(data) || MaxOf(data) == MinOf(data)
    ensures Table(data, StatsClasses(BasicStatistics.BasicStatsOf(data, k, sqrt)))[k - 1].cumFreq == |data|
    ensures Table(data, StatsClasses(BasicStatistics.BasicStatsOf(data, k, sqrt)))[k - 1].cumRelFreq == 1.0
  {
    var c := StatsClasses(BasicStatistics.BasicStatsOf(data, k, sqrt));
    StatsClassesFromSample(data, k, sqrt);
    EveryValueCounted(data, k);
    assert c == SampleClasses(data, k);
  }

  /** Classes that span the sample count every value: the last cumulative frequency is n and
      the last cumulative relative frequency is 1. */
  lemma TableCoversSample(data: seq<real>, c: Classes)
    requires |data| > 0 && c.k >= 1 && c.amplitude >= 0.0 && Spans(c, data)
    ensures Table(data, c)[c.k - 1].cumFreq == |data|
    ensures Table(data, c)[c.k - 1].cumRelFreq == 1.0
  {
    CountCovered(data, c);
    TableTotals(data, c);
    DivSelf(Count(data, c, c.k) as real, |data| as real);
  }

  /** `x / n == 1` when `x == n`. */
  lemma DivSelf(x: real, n: real)
    requires x == n && n > 0.0
    ensures x / n == 1.0
  {
  }

  /** With a width rounded to hundredths the classes can stop short of the maximum: for the
      sample 0, 1.003 and k = 3 the width is 0.33, the classes end at 0.99, and only one of the
      two values is counted. */
  lemma MaximumCanBeLost()
    ensures var data := [0.0, 1.003];
      && !BasicStatistics.AllIntegers(data) && SampleClasses(data, 3) == Classes(0.0, 0.33, 3)
      && Count(data, SampleClasses(data, 3), 3) == 1
  {
    var data := [0.0, 1.003];
    assert !BasicStatistics.IsInteger(data[1]);
    assert MinOf(data) == 0.0 && MaxOf(data) == 1.003;
    assert BasicStatistics.Amplitude(1.003 - 0.0, 3, false) == 0.33 by {
      assert (1.003 / 3.0 * 100.0 + 0.5).Floor == 33;
    }
    SecondValueMissed();
  }

  /** Of 0 and 1.003, three classes of width 0.33 from 0 hold only 0. */
  lemma SecondValueMissed()
    ensures Count([0.0, 1.003], Classes(0.0, 0.33, 3), 3) == 1
  {
    var c := Classes(0.0, 0.33, 3);
    assert [0.0] + [1.003] == [0.0, 1.003];
    CountSnoc([0.0], 1.003, c, 3);
    assert [] + [0.0] == [0.0];
    CountSnoc([], 0.0, c, 3);
    CountEmpty(c, 3);
  }

}
