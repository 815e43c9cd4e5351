# Statistics engine of the descriptive-statistics page

This project models the statistics engine of a single-page teaching site for descriptive
statistics (`js/script.js`), and proves properties of that model.

- **Reading a sample.** The page reads a sample typed into a text field. It splits the text on
  runs of commas and whitespace, drops blank pieces, parses each piece with `parseFloat` and
  drops the pieces that are not numbers. Blank input and input with no number are two
  different errors.
- **Summary measures.** From the sample it computes n, the minimum, maximum and range. It
  also computes the class width of a grouped frequency table: the ceiling of `range / k` for
  integer data, otherwise rounded to hundredths. Then come the mean, the population variance,
  the standard deviation and the coefficient of variation.
- **Quartiles.** Q1, Q2 and Q3 come from a linear-interpolation percentile. From them come
  the interquartile range, Tukey's inner fences (1.5·IQR) and outer fences (3·IQR), and a
  split of the sorted sample into normal values, moderate outliers and extreme outliers.
  The enhanced boxplot also computes whisker endpoints.
- **Frequency table.** The table has k classes of equal width. Every class is half-open
  except the last, which is closed. Each row carries relative frequencies, and a second pass
  writes cumulative frequencies into the rows.
- **Decision rules.** There is a dispersion band for the coefficient of variation, and a
  river-crossing analysis. That analysis gives its own verdict from the coefficient of
  variation, and a risk tier from the share of depths above a safe height.

Numbers are exact reals. `parseFloat` is a parameter `string -> Option<real>`, with `None`
standing for NaN. `Math.sqrt` is a parameter `real -> real`. The Sturges class count
`ceil(1 + 3.322·log10 n)` is a parameter too, and it is required to be at least 1.

The coefficient of variation is a datatype `Cv`, because it divides by a mean that may be
zero. It is either a finite value, NaN (`0 / 0`) or an infinity. The two verdicts treat NaN
differently, because every comparison with NaN is false.

Modules:
- `Wrappers`: `Option` and `Result`.
- `Seqs`: the array operations used (`filter`, sum, `Math.min`/`Math.max`, sortedness).
- `Parser`: tokenising and the two input errors.
- `BasicStatistics`: `calculateBasicStats`.
- `Quartiles`: `getPercentile`, `calculateQuartiles` and `calculateEnhancedStatistics`.
- `Frequency`: the table of `createFrequencyDistribution`.
- `Decisions`: the dispersion band and `analyzeRiverData`.
- `Sorting`: the in-place numeric sort.
- `App`: the page's globals as two classes, `Analysis` and `EnhancedBoxplot`. Their methods
  update the fields the JavaScript functions assign. The frequency loops are methods proved
  against the functions of `Frequency`.

Some properties are proved about the model beyond the row-by-row contracts:
- **The class width can lose the maximum.** Widths rounded to hundredths can make the classes
  stop short of the maximum, so a value is missed. `Frequency.MaximumCanBeLost` shows this for
  the sample 0, 1.003 with k = 3.
- **The whisker fallback never runs on finite data.** For a non-empty sorted sample of
  finite numbers, `Quartiles.NormalValuesNonEmpty` proves some value always lies inside the
  inner fences (the model's numbers are exact reals). In the page `parseFloat` also accepts
  `Infinity` and `1e999`, and an infinite value alone does not change this. In
  `1 2 3 4 5 6 7 8 Infinity`, Q1 = 3 and Q3 = 7, the fences are finite, and Infinity is
  simply an extreme outlier. The fallback runs only when the IQR is NaN. That happens when Q1
  and Q3 are the same infinity (`Infinity` or `1, Infinity`), or when a quartile interpolates
  between −Infinity and Infinity.
- **The two CV verdicts disagree in two places.** The dispersion section and the river
  section split the coefficient of variation at 15 and 35 with different comparisons. They
  agree everywhere except at exactly 15 and at NaN (`Decisions.BandsAgreeExceptAtFifteen`).

## Model

| member | source | states |
|---|---|---|
| Seqs.Filter | js/script.js:16 | a filter keeps at most as many elements as its input |
| Seqs.FilterMembers | js/script.js:91-93 | every kept element occurs in the input and satisfies the predicate; every element of the input satisfying it is kept |
| Seqs.FilterSorted | js/script.js:1509-1520 | filtering a sorted sequence leaves it sorted (order-preserving subsequence) |
| Seqs.FilterPartition3 | js/script.js:1509-1520 | under three mutually exclusive and exhaustive predicates, the multisets of the three filters add up to the input's multiset |
| Seqs.MinOf | js/script.js:46 | the minimum is an element of the sample and at most every element |
| Seqs.MaxOf | js/script.js:47 | the maximum is an element of the sample and at least every element |
| Parser.TrimEmptyIff | js/script.js:9 | trimming leaves nothing exactly when the text is all whitespace, so the blank check is "all whitespace" |
| Parser.Split | js/script.js:15 | splitting on separator runs yields at least one piece and no piece contains a separator |
| Parser.SplitWord | js/script.js:15 | a separator-free text is a single piece |
| Parser.SplitFirstPiece | js/script.js:15 | a separator-free word followed by a separator run is the first piece, and splitting resumes right after the whole run |
| Parser.Tokens | js/script.js:15-16 | the pieces that are not blank; its meaning is given by `TokensEmpty`, `TokensWord` and `TokensAtSeparator` |
| Parser.TokensEmpty | js/script.js:15-16 | the empty text has no tokens |
| Parser.TokensWord | js/script.js:15-16 | a non-empty separator-free word is exactly one token |
| Parser.TokensLeadingSeparator | js/script.js:15-16 | a separator in front of a text does not change its tokens |
| Parser.TokensAtSeparator | js/script.js:15-16 | every separator cuts: the tokens of `a + [c] + b` for a separator `c` are those of `a` followed by those of `b`; with the two rows above this fixes the tokens of every text |
| Parser.TokensWellFormed | js/script.js:15-16 | every token kept after the blank filter is non-empty and separator-free |
| Parser.TokensConcat | js/script.js:15-16 | the tokens, concatenated, are exactly the input with its separators removed: nothing else is lost |
| Parser.TokensJoin | js/script.js:15-16 | joining non-empty separator-free tokens with single spaces and tokenising gives back the same tokens (round trip) |
| Parser.SplitJoin | js/script.js:15 | splitting a space-joined list of non-empty separator-free pieces returns the pieces |
| Parser.BlankHasNoTokens | js/script.js:15-16 | all-whitespace input has no tokens |
| Parser.ParseAll | js/script.js:17-18 | at most one number per token; its meaning is given by `ParseAllInOrder` |
| Parser.ParseAllInOrder | js/script.js:17-18 | the numbers read are the values of the tokens that parse, one per such token and in the tokens' order |
| Parser.ParseAllMembers | js/script.js:17-18 | every number kept was parsed from some token; every token that parses contributes its value; none is kept exactly when no token parses |
| Parser.ReadSample | js/script.js:9-23 | a successful read returns the parsed numbers, and they are non-empty |
| Parser.ReadSampleOutcomes | js/script.js:9-23 | EmptyInput exactly for all-whitespace input; NoValidData exactly for non-blank input where no token parses; otherwise the sample is the values of the tokens that parse, in order |
| BasicStatistics.Ceil | js/script.js:53 | `Math.ceil` returns an integer c with x <= c < x + 1 |
| BasicStatistics.CeilLeast | js/script.js:53 | the ceiling is the least integer at or above x |
| BasicStatistics.Round | js/script.js:53 | `Math.round` is within half a unit, ties rounding up |
| BasicStatistics.RoundToHundredths | js/script.js:53 | rounding to hundredths moves a value by at most 0.005 |
| BasicStatistics.Amplitude | js/script.js:53 | the class width is non-negative and zero for a zero range |
| BasicStatistics.AmplitudeBounds | js/script.js:53 | for integer data the width is an integer and the least one with k·a >= range; otherwise it is within 0.005 of range / k |
| BasicStatistics.SquareNonNegative | js/script.js:58 | a squared deviation is non-negative, and positive for a non-zero deviation |
| BasicStatistics.Mean | js/script.js:56-57 | the sum over n; its meaning is given by `MeanBetween` and `MeanConstant` |
| BasicStatistics.Variance | js/script.js:58 | the mean squared deviation from the mean; its meaning is given by `VarianceNonNegative` and `VarianceZeroIff` |
| BasicStatistics.MeanBetween | js/script.js:56-57 | the mean lies between the minimum and the maximum |
| BasicStatistics.MeanConstant | js/script.js:56-57 | the mean of a constant sample is that constant |
| BasicStatistics.SumSquaredDeviationsZero | js/script.js:58 | the sum of squared deviations is non-negative and zero exactly when every value equals the centre |
| BasicStatistics.VarianceNonNegative | js/script.js:58 | the population variance is at least 0 |
| BasicStatistics.VarianceZeroIff | js/script.js:58 | the variance is 0 exactly when every value equals the mean, and exactly when all values are equal |
| BasicStatistics.RangeZeroIff | js/script.js:46-48 | the range is 0 exactly when all values are equal |
| BasicStatistics.CoefficientOfVariation | js/script.js:60 | the result is finite exactly when the mean is non-zero, NaN exactly for zero mean and zero deviation, +Infinity exactly for zero mean and positive deviation |
| BasicStatistics.CoefficientOfVariationPercent | js/script.js:60 | a finite coefficient satisfies cv·mean = 100·stdDev |
| BasicStatistics.BasicStatsOf | js/script.js:44-62 | the stored n is the sample size and k the class count used |
| BasicStatistics.BasicStatsExtremes | js/script.js:45-48 | min and max are sample values bounding every value; range = max − min >= 0 |
| BasicStatistics.BasicStatsWidth | js/script.js:52-53 | allIntegers holds exactly when every value is an integer; the stored width is computed from the range; integer widths cover the range with k classes and k classes of one less do not |
| BasicStatistics.BasicStatsConsistent | js/script.js:44-62 | min <= mean <= max, variance >= 0, and variance = 0 exactly when range = 0 |
| Quartiles.Position | js/script.js:69 | the percentile position p·(n−1) lies in [0, n−1] |
| Quartiles.PositionMonotone | js/script.js:69 | the position grows with p |
| Quartiles.LowerIndex | js/script.js:70 | `Math.floor(index)` is a valid index at or below the position, less than one below it |
| Quartiles.UpperIndex | js/script.js:71 | `Math.ceil(index)` is a valid index equal to lower or lower + 1, and equals lower exactly when the position is an integer |
| Quartiles.Percentile | js/script.js:68-76 | on sorted data the result lies between data[lower] and data[upper]; p = 0 gives the first element and p = 1 the last |
| Quartiles.PercentileMonotone | js/script.js:78-80 | on sorted data the percentile never decreases as p grows |
| Quartiles.TukeyFences | js/script.js:84-87 | for q1 <= q3 the fences nest (outer lower <= inner lower <= q1, q3 <= inner upper <= outer upper); the inner span is 4·IQR and the outer 7·IQR |
| Quartiles.Summary | js/script.js:78-87 | Q1–Q3 at p = 0.25, 0.5, 0.75, the IQR and the fences; its meaning is given by `QuartilesOrdered` |
| Quartiles.QuartilesOrdered | js/script.js:78-87 | on sorted data first <= Q1 <= Q2 <= Q3 <= last, IQR >= 0 and the fences nest around the box |
| Quartiles.ClassesExclusive | js/script.js:1509-1519 | with nested fences each value is exactly one of normal, moderate, extreme |
| Quartiles.NormalValues | js/script.js:1517-1519 | there are at most n normal values |
| Quartiles.ModerateOutliers | js/script.js:1510-1513 | there are at most n moderate outliers |
| Quartiles.ExtremeOutliers | js/script.js:1514-1516 | there are at most n extreme outliers |
| Quartiles.QuartileStatsOf | js/script.js:78-96 | the stored quartile summary is that of the sorted sample; the stored outlier lists are the moderate and extreme filters of the sample under its fences, so every sample value of each class is listed and only such values are |
| Quartiles.EnhancedStatsOf | js/script.js:1495-1545 | the three classes are the filters of the sample; with normal values the whiskers are their least and greatest; without them the whiskers fall back to Q1 and Q3 |
| Quartiles.OutlierPartition | js/script.js:1509-1520 | normal, moderate and extreme values together are exactly the sample (as multisets), and each class is sorted |
| Quartiles.OutliersDisjoint | js/script.js:1509-1520 | no value is in two classes |
| Quartiles.NormalValuesNonEmpty | js/script.js:1524-1537 | a non-empty sorted sample always has a value inside the inner fences, so the Q1/Q3 fallback never runs |
| Quartiles.WhiskersWithinFences | js/script.js:1524-1537 | the whiskers are sample values inside the inner fences and lower <= upper |
| Frequency.InClass | js/script.js:109-111 | class membership, half-open except the closed last class; its meaning is given by `ClassesDisjoint`, `ClassOf` and `HitsAtMostOne` |
| Frequency.BoundsOrdered | js/script.js:104-105 | with a non-negative width each class's bounds are ordered and a later class starts no earlier than this one ends |
| Frequency.ClassesDisjoint | js/script.js:109-111 | no value lies in two classes |
| Frequency.ClassOf | js/script.js:109-111 | every value between min and min + k·width lies in some class below k |
| Frequency.ClassFrequency | js/script.js:109-111 | a class holds at most n values |
| Frequency.ClassFrequencyCounts | js/script.js:109-111 | a class's frequency is the number of sample positions whose value lies in the class |
| Frequency.ClassRowMeaning | js/script.js:104-123 | a row holds the class bounds, a midpoint halfway between them, the number of values in the class, and that number's share of n, between 0 and 1 |
| Frequency.ClassRowShare | js/script.js:121 | relativeFreq·n = frequency and 0 <= relativeFreq <= 1 |
| Frequency.RowsUpTo | js/script.js:103-124 | the loop produces one row per class, in class order |
| Frequency.WithCumulative | js/script.js:127-134 | the cumulative pass keeps the number of rows |
| Frequency.Table | js/script.js:99-135 | the table has exactly k rows |
| Frequency.CumulativePrefixSums | js/script.js:127-134 | no other field changes; the first row's cumulative values are its own; each later row adds its own frequency and relative frequency to the previous totals; cumFreq never decreases |
| Frequency.TableCumulativeShareMonotone | js/script.js:127-134 | in the table cumRelFreq never decreases |
| Frequency.HitsAtMostOne | js/script.js:109-111 | a value is counted by at most one class, and by one exactly when some class contains it |
| Frequency.CountAtMost | js/script.js:103-124 | the frequencies add up to at most n |
| Frequency.CountCovered | js/script.js:103-124 | when every value lies in [min, min + k·width] the frequencies add up to n |
| Frequency.RowSums | js/script.js:115-124 | the frequency column adds up to the class count total and the relative column to that total over n |
| Frequency.TableTotals | js/script.js:99-135 | k rows with the class bounds and frequencies; the last cumFreq is the total count, at most n; the last cumRelFreq is that count over n |
| Frequency.SampleClasses | js/script.js:45-53 | the classes start at the sample minimum and have a non-negative width |
| Frequency.StatsClassesFromSample | js/script.js:100 | the classes read from `stats` are those computed from the sample |
| Frequency.ClassesSpanSample | js/script.js:52-53 | for integer data or a zero range the classes cover every value |
| Frequency.EveryValueCounted | js/script.js:109-134 | for integer data or a zero range the last cumFreq is n and the last cumRelFreq is 1 |
| Frequency.StatsTableCountsEveryValue | js/script.js:99-134 | the same for the classes read from `stats` |
| Frequency.TableCoversSample | js/script.js:127-134 | classes spanning the sample end with cumFreq = n and cumRelFreq = 1 |
| Frequency.MaximumCanBeLost | js/script.js:53 | for 0, 1.003 and k = 3 the width is 0.33 and only one of the two values is counted |
| Decisions.DispersionBand | js/script.js:1104-1116 | low exactly for finite cv < 15 or −Infinity; high exactly for NaN, +Infinity or finite cv > 35; moderate otherwise |
| Decisions.RiverCvBand | js/script.js:1184-1190 | high exactly for +Infinity or finite cv > 35; low exactly for NaN, −Infinity or finite cv <= 15; moderate otherwise |
| Decisions.BandsMonotone | js/script.js:1104-1116 | a larger finite coefficient never gives a lower band, in either rule |
| Decisions.BandsAgreeExceptAtFifteen | js/script.js:1184-1190 | the river verdict equals the dispersion band exactly when cv is neither NaN nor exactly 15 |
| Decisions.UnsafePoints | js/script.js:1198 | the unsafe count is at most n |
| Decisions.RiskTier | js/script.js:1199-1212 | the tier from the percentage of unsafe points; its meaning is given by `RiskTierCounts` |
| Decisions.RiskTierCounts | js/script.js:1199-1212 | the tier is low exactly for no unsafe point, high exactly when 5·unsafe > n, moderate otherwise |
| Decisions.RiskTierOfDepths | js/script.js:1198-1212 | low exactly when no depth exceeds the safe height; high exactly when more than a fifth do; moderate exactly when some do but at most a fifth |
| Decisions.NaNSafeHeightIsLowRisk | js/script.js:1198-1212 | a safe height that is NaN gives low risk for any depths |
| Decisions.AnalyzeRiverData | js/script.js:1130-1212 | the analysis succeeds exactly when the depths can be read, and otherwise reports the reading error |
| Decisions.RiverReportMeaning | js/script.js:1149-1212 | a report's risk is low exactly when no parsed depth exceeds the parsed safe height and high exactly when more than a fifth do; range >= 0 and min <= mean <= max |
| Sorting.SortAscending | js/script.js:1461 | the array ends sorted and is a permutation of its old contents |
| Sorting.InsertLast | js/script.js:1461 | one insertion step extends the sorted prefix by one, keeps the multiset and leaves the elements after it unchanged |
| Sorting.SortedPermutationUnique | js/script.js:25 | two sorted sequences with the same multiset are equal, so the sorted sample is determined |
| App.SortedCopy | js/script.js:25 | a new array holds a sorted permutation of the sample |
| App.ClassRows | js/script.js:103-124 | the push loop builds exactly the rows of `Frequency.RowsUpTo` for the k classes |
| App.AddCumulative | js/script.js:127-134 | the running-total loop turns the rows into `Frequency.WithCumulative` of them |
| App.Analysis.constructor | js/script.js:2-5 | the globals start empty, with `stats` unset |
| App.Analysis.CalculateStatistics | js/script.js:7-30 | see the note under the table |
| App.Analysis.CalculateBasicStats | js/script.js:44-63 | `stats` becomes the basic summary of `dataArray`; nothing else changes |
| App.Analysis.CalculateQuartiles | js/script.js:65-97 | `stats` gains the quartile summary of `sortedData`; nothing else changes |
| App.Analysis.CreateFrequencyDistribution | js/script.js:99-135 | `frequencyData` becomes the table of the classes in `stats`, or stays empty without `stats`; nothing else changes |
| App.EnhancedBoxplot.constructor | js/script.js:1439-1440 | the enhanced data is empty and its statistics unset |
| App.EnhancedBoxplot.CalculateEnhancedBoxplot | js/script.js:1442-1470 | see the note under the table |
| App.EnhancedBoxplot.CalculateEnhancedStatistics | js/script.js:1481-1546 | `enhancedStats` becomes the enhanced summary of `enhancedData`, which is unchanged |

Two rows above point here because their contracts have several parts.

`App.Analysis.CalculateStatistics`:
- It returns no error exactly when the sample can be read, and otherwise it returns the
  reading error.
- Blank input changes nothing.
- "No valid data" empties `dataArray` and leaves everything else alone.
- On success:
  - `dataArray` holds the parsed numbers;
  - `sortedData` is a sorted permutation of them;
  - `stats` holds the basic summary together with the quartile summary;
  - `frequencyData` is the table for the classes in `stats`.

`App.EnhancedBoxplot.CalculateEnhancedBoxplot`:
- It returns no error exactly when the sample can be read, and otherwise it returns the
  reading error.
- Blank input changes nothing.
- "No valid data" leaves a new empty array and the old statistics.
- On success, a new array holds a sorted permutation of the parsed numbers, and
  `enhancedStats` holds the enhanced summary of that array.

## Left out

What the model does not cover, and why:
- **Presentation.** DOM access, alerts, HTML building, `toFixed` formatting, the interval
  strings of the frequency rows, and every Plotly chart are presentation only. The alerts
  become returned errors.
- **Foreign calls.** `parseFloat` and `Math.sqrt` are parameters. `Infinity` as a parsed
  value is not modelled: the parameter yields a real or NaN. In the page, the fences stay finite
  when both quartiles are finite. They become −Infinity or +Infinity when exactly one quartile
  is infinite, and every value is then normal: in `1 2 3 Infinity`, Q1 = 1.75, Q3 = Infinity,
  and the upper whisker is Infinity. They are NaN when the IQR is NaN (Q1 and Q3 the same
  infinity, or a quartile interpolating between −Infinity and Infinity). With NaN fences every fence comparison is
  false. The page then puts the values in none of the three classes, so the partition proved
  by `Quartiles.OutlierPartition` does not hold in the page there, and the whiskers fall back
  to Q1 and Q3. The model has no such case.
- **The Sturges class count.** `Math.log10` and the class-count formula are a parameter,
  required to be at least 1.
- **Floating point.** Rounding drift is not modelled. All arithmetic is exact; the
  coefficient of variation alone keeps JavaScript's NaN and infinities for division by zero.
- **The simple frequency table.** The object-keyed table depends on JavaScript's ordering
  of property keys.
- **The tutorial quartiles.** The positional quartiles of the tutorial section are display
  only and separate from the computed Q1–Q3.
- **Cumulative fields before the second pass.** Rows are modelled with `cumFreq` and
  `cumRelFreq` set to 0 until the cumulative pass writes them. In the page those fields are
  simply absent.
- **The sort algorithm.** The page's built-in sort is modelled as an insertion sort.
  `Sorting.SortedPermutationUnique` shows that any correct sort gives the same sequence.
- **Calls into display code.** `calculateStatistics` also calls display and tutorial
  updaters. Of those, only the dispersion band of `updateDispersionMeasures` is modelled
  (`Decisions.DispersionBand`), as a function of `stats.cv`.
- **Frequency.EveryValueCounted.** "Every value counted" is stated only for integer data or
  a zero range. For other data the width is rounded to hundredths and a value can be missed,
  as `Frequency.MaximumCanBeLost` shows.
- **Preconditions on internal steps.** `App.Analysis.CalculateBasicStats`,
  `App.Analysis.CalculateQuartiles`, `App.Analysis.CreateFrequencyDistribution` (when `stats`
  is set), `App.ClassRows` and `App.EnhancedBoxplot.CalculateEnhancedStatistics` require a
  non-empty sample. On an empty sample the page would divide 0 by 0 for the relative
  frequencies. They run only after the handler has rejected empty input, and
  the page never calls them otherwise.
