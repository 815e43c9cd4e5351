/** The page's state and the handlers that fill it: the globals `dataArray`, `sortedData`,
    `stats` and `frequencyData` of the main analysis, and `enhancedData` and `enhancedStats` of
    the enhanced boxplot. Reading the text field, `parseFloat`, `Math.sqrt` and the Sturges
    class count are parameters; alerts become returned errors. */
module App {
  import opened Wrappers
  import opened Seqs
  import Parser
  import BasicStatistics
  import Quartiles
  import Frequency
  import Sorting

  /** `stats`: the object `calculateBasicStats` writes, and the `quartiles` member that
      `calculateQuartiles` adds to it. */
  datatype Stats = Stats(basic: BasicStatistics.BasicStats, quartiles: Option<Quartiles.QuartileStats>)

  /** The main analysis: `calculateStatistics` and the three steps it runs. */
  class Analysis {
    var dataArray: seq<real>
    var sortedData: seq<real>
    /** `None` while `stats` is still the empty object `{}`. */
    var stats: Option<Stats>
    var frequencyData: seq<Frequency.Row>

    /** The globals as the page loads them. */
    constructor ()
      ensures dataArray == [] && sortedData == [] && stats == None && frequencyData == []
    {
      dataArray := [];
      sortedData := [];
      stats := None;
      frequencyData := [];
    }

    /** `calculateStatistics`. Blank input changes nothing; input without a number empties
        `dataArray` and leaves the rest; otherwise the sample is parsed, sorted, summarised,
        split into quartiles and tabulated. `classCount` is the Sturges rule
        `ceil(1 + 3.322 log10 n)`, which is at least 1 for every n >= 1. */
    method CalculateStatistics(
      input: string, parse: string -> Option<real>, sqrt: real -> real, classCount: nat -> nat)
      returns (err: Option<Parser.InputError>)
      requires forall n: nat :: n >= 1 ==> classCount(n) >= 1
      modifies this
      ensures err.None? <==> Parser.ReadSample(input, parse).Success?
      ensures err.Some? ==> err.value == Parser.ReadSample(input, parse).error
      ensures err == Some(Parser.EmptyInput) ==>
        dataArray == old(dataArray) && sortedData == old(sortedData)
        && stats == old(stats) && frequencyData == old(frequencyData)
      ensures err == Some(Parser.NoValidData) ==>
        dataArray == [] && sortedData == old(sortedData)
        && stats == old(stats) && frequencyData == old(frequencyData)
      ensures err.None? ==>
        && dataArray == Parser.Numbers(input, parse)
        && Sorted(sortedData) && multiset(sortedData) == multiset(dataArray)
        && stats == Some(Stats(
             BasicStatistics.BasicStatsOf(dataArray, classCount(|dataArray|), sqrt),
             Some(Quartiles.QuartileStatsOf(sortedData))))
        && frequencyData == Frequency.Table(dataArray, Frequency.StatsClasses(stats.value.basic))
    {
      if Parser.Trim(input) == [] {
        return Some(Parser.EmptyInput);
      }
      dataArray := Parser.Numbers(input, parse);
      if |dataArray| == 0 {
        return Some(Parser.NoValidData);
      }
      var a := SortedCopy(dataArray);
      sortedData := a[..];
      CalculateBasicStats(classCount(|dataArray|), sqrt);
      CalculateQuartiles();
      CreateFrequencyDistribution();
      return None;
    }

    /** `calculateBasicStats`: overwrites `stats` with the summary of `dataArray`. It runs only
        after `calculateStatistics` has found the sample non-empty. */
    method CalculateBasicStats(k: nat, sqrt: real -> real)
      requires |dataArray| > 0 && k >= 1
      modifies this
      ensures dataArray == old(dataArray) && sortedData == old(sortedData)
      ensures frequencyData == old(frequencyData)
      ensures stats == Some(Stats(BasicStatistics.BasicStatsOf(dataArray, k, sqrt), None))
    {
      stats := Some(Stats(BasicStatistics.BasicStatsOf(dataArray, k, sqrt), None));
    }

    /** `calculateQuartiles`: adds the quartiles, fences and outliers of `sortedData` to the
        `stats` that `calculateBasicStats` wrote. */
    method CalculateQuartiles()
      requires |sortedData| > 0 && stats.Some?
      modifies this
      ensures dataArray == old(dataArray) && sortedData == old(sortedData)
      ensures frequencyData == old(frequencyData)
      ensures stats == Some(old(stats).value.(quartiles := Some(Quartiles.QuartileStatsOf(sortedData))))
    {
      stats := Some(stats.value.(quartiles := Some(Quartiles.QuartileStatsOf(sortedData))));
    }

    /** `createFrequencyDistribution`: one row per class pushed by the `for` loop, then the
        `forEach` pass that writes the running totals into each row. With `stats` still `{}`
        the loop bound is `undefined` and the table stays empty. */
    method CreateFrequencyDistribution()
      requires stats.Some? ==> |dataArray| > 0
      modifies this
      ensures dataArray == old(dataArray) && sortedData == old(sortedData) && stats == old(stats)
      ensures stats.None? ==> frequencyData == []
      ensures stats.Some? ==> frequencyData == Frequency.Table(dataArray, Frequency.StatsClasses(stats.value.basic))
    {
      frequencyData := [];
      if stats.None? {
        return;
      }
      var rows := ClassRows(dataArray, Frequency.StatsClasses(stats.value.basic));
      frequencyData := AddCumulative(rows);
    }
  }

  /** A new array holding a copy of `xs` sorted ascending, as the page sorts a spread copy. */
  method SortedCopy(xs: seq<real>) returns (a: array<real>)
    ensures fresh(a)
    ensures Sorted(a[..]) && multiset(a[..]) == multiset(xs)
  {
    a := new real[|xs|](i requires 0 <= i < |xs| => xs[i]);
    assert a[..] == xs;
    Sorting.SortAscending(a);
  }

  /** The `for` loop of `createFrequencyDistribution`: for each class its bounds, the number of
      values it holds, that number over n, and its midpoint, pushed in class order. */
  method ClassRows(data: seq<real>, c: Frequency.Classes) returns (rows: seq<Frequency.Row>)
    requires |data| > 0
    ensures rows == Frequency.RowsUpTo(data, c, c.k)
  {
    var n := |data| as real;
    rows := [];
    for i := 0 to c.k
      invariant rows == Frequency.RowsUpTo(data, c, i)
    {
      var lowerBound := c.min + (i as real) * c.amplitude;
      var upperBound := c.min + ((i + 1) as real) * c.amplitude;
      var frequency := Frequency.ClassFrequency(data, c, i);
      var midpoint := (lowerBound + upperBound) / 2.0;
      var row := Frequency.Row(lowerBound, upperBound, frequency, frequency as real / n, midpoint, 0, 0.0);
      assert row == Frequency.ClassRow(data, c, i);
      rows := rows + [row];
    }
  }

  /** The `forEach` pass of `createFrequencyDistribution`: running totals of the frequency and
      relative frequency columns, written into each row in turn. */
  method AddCumulative(rows: seq<Frequency.Row>) returns (table: seq<Frequency.Row>)
    ensures table == Frequency.WithCumulative(rows)
  {
    table := rows;
    var cumFreq: nat := 0;
    var cumRelFreq := 0.0;
    for i := 0 to |table|
      invariant |table| == |rows|
      invariant cumFreq == Frequency.SumFreq(rows, i) && cumRelFreq == Frequency.SumRelFreq(rows, i)
      invariant forall j :: 0 <= j < i ==> table[j] == Frequency.WithCumulative(rows)[j]
      invariant forall j :: i <= j < |rows| ==> table[j] == rows[j]
    {
      cumFreq := cumFreq + table[i].frequency;
      cumRelFreq := cumRelFreq + table[i].relativeFreq;
      table := table[i := table[i].(cumFreq := cumFreq, cumRelFreq := cumRelFreq)];
    }
  }

  /** The enhanced boxplot section: `calculateEnhancedBoxplot` and `calculateEnhancedStatistics`. */
  class EnhancedBoxplot {
    var enhancedData: array<real>
    /** `None` while `enhancedStats` is still the empty object `{}`. */
    var enhancedStats: Option<Quartiles.EnhancedStats>

    /** The globals as the page loads them. */
    constructor ()
      ensures enhancedData.Length == 0 && enhancedStats == None
    {
      enhancedData := new real[0];
      enhancedStats := None;
    }

    /** `calculateEnhancedBoxplot`. Blank input changes nothing; input without a number leaves
        `enhancedData` empty; otherwise the numbers are sorted in place and summarised. */
    method CalculateEnhancedBoxplot(input: string, parse: string -> Option<real>)
      returns (err: Option<Parser.InputError>)
      modifies this
      ensures err.None? <==> Parser.ReadSample(input, parse).Success?
      ensures err.Some? ==> err.value == Parser.ReadSample(input, parse).error
      ensures err == Some(Parser.EmptyInput) ==>
        enhancedData == old(enhancedData) && enhancedStats == old(enhancedStats)
      ensures err == Some(Parser.NoValidData) ==>
        fresh(enhancedData) && enhancedData.Length == 0 && enhancedStats == old(enhancedStats)
      ensures err.None? ==>
        && fresh(enhancedData)
        && Sorted(enhancedData[..])
        && multiset(enhancedData[..]) == multiset(Parser.Numbers(input, parse))
        && enhancedStats == Some(Quartiles.EnhancedStatsOf(enhancedData[..]))
    {
      if Parser.Trim(input) == [] {
        return Some(Parser.EmptyInput);
      }
      var xs := Parser.Numbers(input, parse);
      if |xs| == 0 {
        enhancedData := new real[0];
        return Some(Parser.NoValidData);
      }
      enhancedData := SortedCopy(xs);
      CalculateEnhancedStatistics();
      return None;
    }

    /** `calculateEnhancedStatistics`: quartiles, both pairs of fences, the three classes of
        values and the whiskers of the sorted `enhancedData`. It runs only on a non-empty
        sample. */
    method CalculateEnhancedStatistics()
      requires enhancedData.Length > 0
      modifies this
      ensures enhancedData == old(enhancedData)
      ensures enhancedStats == Some(Quartiles.EnhancedStatsOf(enhancedData[..]))
    {
      enhancedStats := Some(Quartiles.EnhancedStatsOf(enhancedData[..]));
    }
  }
}
