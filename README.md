# pyHomogeneity in Dafny

A model of the core of pyHomogeneity (`pyhomogeneity/pyhomogeneity.py`), a library of homogeneity tests for time series. Each test looks for one change point in a series of observations and can also estimate a p-value for it:

- Pettitt;
- the standard normal homogeneity test (SNHT);
- Buishand's Q, range, likelihood-ratio and U statistics.

A call runs in these steps:

1. The input is shaped (`__preprocessing`).
2. Missing values (NaN) are dropped (`__missing_values_analysis`).
3. One statistic and its 1-based change point `loc` are computed.
4. If simulations are requested, a Monte Carlo p-value is computed (`__mc_p_value`) and the decision `h = alpha > p` is taken.
5. The means of the series before and after `loc` are reported (`__mean`).

The model is purely functional, like the code. Series are `seq<real>` and a missing value is `None`. Standard deviations and the simulated statistics are parameters.

Modules, one file each:

- `Basics` (`basics.dfy`): `Option` and `Result`.
- `Series` (`series.dfy`): sums, means, cumulative deviations `S_k`, numpy's first-index `argmax`/`argmin`, and counting.
- `Cleaning` (`cleaning.dfy`): input shapes and the missing-value filter.
- `Ranks` (`ranks.dfy`): mid-ranks and pairwise sign sums.
- `ChangePoint` (`changepoint.dfy`): the six statistics.
- `Significance` (`significance.dfy`): the Monte Carlo p-value.
- `Homogeneity` (`homogeneity.dfy`): `__test`, the public entry points, and the finding below.

Where the code and the intended behaviour of the library disagree, the model follows the code:

- Buishand range and U divide by the sample standard deviation (`ddof=1`), although the comments beside them point to `x.std()`, the population one (pyhomogeneity/pyhomogeneity.py:94, 117).
- Q and LR divide by the population standard deviation.
- The location returned is the position in the filtered series, not the original label. `Cleaning.ChangePointLabel` maps one to the other.
- The entry points return a plain tuple `(stat, loc, h, p, mu1, mu2)`.

The exceptions, where the model gives an outcome the code does not:

- A series with no spread should be reported as an error. `Test` and `Entry` refuse it with `DegenerateVariance` for every method that divides by a standard deviation. Pettitt is exempt: its statistic needs no standard deviation, and on a constant series the code gives U = 0 at loc 1. The code gives the other methods a NaN statistic and `h = true`; that behaviour is modelled separately (see "## Findings").
- Fewer than two observations, and tables with more than one column, are refused with `InsufficientData` and `MultiColumn` (see the `Homogeneity.Prepare` lines under "## Left out").
- The range and LR entry points raise NameError as written; `Homogeneity.Entry` gives their intended outcome (see the glue line under "## Left out").

## Model

| member | source | states |
|---|---|---|
| Cleaning.Preprocess | pyhomogeneity/pyhomogeneity.py:17-34 | a vector passes through; a one-column table becomes its column, with nothing lost; any other table is kept two-dimensional with its column count; any other rank is the shape error |
| Cleaning.Flatten | pyhomogeneity/pyhomogeneity.py:29 | one cell per row, and the column rebuilt from the cells is the table itself, so flattening loses nothing |
| Cleaning.FlattenRoundTrip | pyhomogeneity/pyhomogeneity.py:27-29 | flattening a one-column table is undone by rebuilding the column, and the other way round |
| Cleaning.Kept | pyhomogeneity/pyhomogeneity.py:41 | the kept indices are increasing, each is accepted, and every accepted index is among them |
| Cleaning.Clean | pyhomogeneity/pyhomogeneity.py:41 | the i-th value kept is the value of the i-th present cell, and as many values are kept as cells are present |
| Cleaning.CleanRows | pyhomogeneity/pyhomogeneity.py:44 | the i-th kept row is, entry by entry, the i-th row without a missing entry |
| Cleaning.SkipMissing | pyhomogeneity/pyhomogeneity.py:38-48 | a flat series loses its missing values and a table loses its incomplete rows; n is the number kept |
| Cleaning.CleanConcat | pyhomogeneity/pyhomogeneity.py:41 | filtering a concatenation is the concatenation of the filtered parts |
| Cleaning.InsertMissing | pyhomogeneity/pyhomogeneity.py:41 | inserting a missing value anywhere leaves the filtered series unchanged |
| Cleaning.ChangePointLabel | pyhomogeneity/pyhomogeneity.py:41 | the filtered location loc stands for an original position holding the loc-th kept value, with exactly loc present values up to it |
| Series.Mean | pyhomogeneity/pyhomogeneity.py:131-135 | n times the mean is the sum |
| Series.SumConcat | pyhomogeneity/pyhomogeneity.py:80 | the sum of a concatenation is the sum of the parts, so each cumulative sum adds one more value |
| Series.PrefixSuffixSum | pyhomogeneity/pyhomogeneity.py:131-135 | the sums before and after any split add up to the whole sum |
| Series.CumDev | pyhomogeneity/pyhomogeneity.py:79-80 | S has one entry per observation, and S_n is exactly 0 |
| Series.Abs | pyhomogeneity/pyhomogeneity.py:83-85 | each entry is non-negative and is the value or its negation |
| Series.ConstantHasNoSpread | pyhomogeneity/pyhomogeneity.py:82 | a constant series has a zero sum of squared deviations |
| Series.ArgMax | pyhomogeneity/pyhomogeneity.py:60 | the index holds a largest value, and every earlier entry is strictly smaller (numpy's first occurrence) |
| Series.ArgMin | pyhomogeneity/pyhomogeneity.py:95 | the index holds a smallest value, and every earlier entry is strictly larger |
| Series.Max | pyhomogeneity/pyhomogeneity.py:95 | the maximum is an entry of the series and no entry exceeds it |
| Series.Min | pyhomogeneity/pyhomogeneity.py:95 | the minimum is an entry of the series and no entry is below it |
| Series.CountGreater | pyhomogeneity/pyhomogeneity.py:126 | the count is 0 exactly when no entry exceeds v, and the full length exactly when all do |
| Ranks.MidRanks | pyhomogeneity/pyhomogeneity.py:53 | one rank per observation |
| Ranks.MidRankBounds | pyhomogeneity/pyhomogeneity.py:53 | every mid-rank lies in [1, n] |
| Ranks.MidRankOrder | pyhomogeneity/pyhomogeneity.py:53 | a smaller value gets a strictly smaller rank, and tied values get the same rank |
| Ranks.RankSum | pyhomogeneity/pyhomogeneity.py:53 | the mid-ranks sum to n(n+1)/2, with ties or without |
| Ranks.RankPrefixSigns | pyhomogeneity/pyhomogeneity.py:56-58 | 2(r_1+…+r_k) − k(n+1) is the sum of sgn(x_i − x_j) over i ≤ k and all j |
| Ranks.PairSignsAntisymmetric | pyhomogeneity/pyhomogeneity.py:58 | the sign sums of two blocks taken in either order cancel, since sgn(b − a) = −sgn(a − b) |
| Ranks.SameOrderSameRanks | pyhomogeneity/pyhomogeneity.py:53 | two series with the same order and tie pattern get the same ranks |
| ChangePoint.PettittU | pyhomogeneity/pyhomogeneity.py:55-58 | U has one entry per split k = 1..n−1 |
| ChangePoint.Pettitt | pyhomogeneity/pyhomogeneity.py:51-60 | loc is in [1, n−1]; the statistic is U at loc, at least every U_k, and strictly above every U_k before loc |
| ChangePoint.PettittMatchesDefinition | pyhomogeneity/pyhomogeneity.py:53-58 | the rank-sum U_k equals Pettitt's definition: the sum of sgn(x_i − x_j) over i ≤ k < j |
| ChangePoint.PettittIntegral | pyhomogeneity/pyhomogeneity.py:58 | every U_k is a whole number |
| ChangePoint.MeanRank | pyhomogeneity/pyhomogeneity.py:53-58 | the mid-ranks of any n observations, ties included, average (n+1)/2 |
| ChangePoint.PettittIsRankDeviation | pyhomogeneity/pyhomogeneity.py:53-58 | U_k is twice the cumulative deviation of the ranks from their mean (n+1)/2 |
| ChangePoint.PettittOrderInvariant | pyhomogeneity/pyhomogeneity.py:51-60 | series with the same order and tie pattern get the same statistic and location |
| ChangePoint.BuishandLocation | pyhomogeneity/pyhomogeneity.py:85 | loc is the first k where abs(S_k) is largest; because S_n = 0 it lies in [1, n−1]; it is 1 when every S_k is 0 |
| ChangePoint.FirstPeakBeforeEnd | pyhomogeneity/pyhomogeneity.py:80-85 | a deviation sequence ending in 0 has its first peak magnitude before the end, and at the start when all of it is 0 |
| ChangePoint.BuishandQ | pyhomogeneity/pyhomogeneity.py:76-85 | the location is the shared Buishand location; Q is the largest abs(S_k)/std and is reached at that location |
| ChangePoint.ScaledPeak | pyhomogeneity/pyhomogeneity.py:82-83 | dividing by a positive sd keeps the peak magnitude where it is: the largest abs(S_k/sd) is the largest abs(S_k) divided by sd |
| ChangePoint.BuishandRange | pyhomogeneity/pyhomogeneity.py:88-97 | the location is the shared Buishand location; R is (max S − min S)/std and is non-negative |
| ChangePoint.ScaledExtremes | pyhomogeneity/pyhomogeneity.py:94-95 | dividing by a positive sd divides the maximum, the minimum and their difference by sd |
| ChangePoint.RangeAndPeak | pyhomogeneity/pyhomogeneity.py:95 | in a sequence holding a 0, the peak magnitude ≤ max − min ≤ twice the peak magnitude |
| ChangePoint.QWithinRange | pyhomogeneity/pyhomogeneity.py:82-95 | with the same standard deviation, Q ≤ R ≤ 2Q |
| ChangePoint.LrTerms | pyhomogeneity/pyhomogeneity.py:106 | V has one entry per split k = 1..n−1; entry k−1 is S_k/(std·k·(n−k)) by definition |
| ChangePoint.BuishandLR | pyhomogeneity/pyhomogeneity.py:100-108 | the location is the shared Buishand location; the statistic is one of the V_k and at least all of them |
| ChangePoint.BuishandU | pyhomogeneity/pyhomogeneity.py:111-120 | the location is the shared Buishand location; U is non-negative, and U·sd² = (S_1² + … + S_{n−1}²)/(n(n+1)) on the unscaled deviations |
| ChangePoint.MeanSquare | pyhomogeneity/pyhomogeneity.py:118 | the sum of squares of the first n−1 entries over n(n+1) is non-negative |
| ChangePoint.StandardisedMeanSquare | pyhomogeneity/pyhomogeneity.py:117-118 | for any deviation sequence d, the mean square of d/sd is non-negative and, times sd², is (d_1² + … + d_{n−1}²)/(n(n+1)) |
| ChangePoint.MeanSquareScaled | pyhomogeneity/pyhomogeneity.py:117-118 | the mean square of S/sd, times sd², is the mean square of S |
| ChangePoint.SquareSumScaled | pyhomogeneity/pyhomogeneity.py:118 | the sum of squares of S/sd, times sd², is the sum of squares of S |
| ChangePoint.UBelowQ | pyhomogeneity/pyhomogeneity.py:111-120 | with the same standard deviation, U ≤ (n−1)·Q²/(n(n+1)), where Q is the largest standardised magnitude |
| ChangePoint.SquareSumBound | pyhomogeneity/pyhomogeneity.py:118 | squares that each stay within q add up to at most length·q |
| ChangePoint.SnhtT | pyhomogeneity/pyhomogeneity.py:65-71 | T has one entry per split k = 1..n−1 |
| ChangePoint.SnhtTerm | pyhomogeneity/pyhomogeneity.py:69-71 | each T_k = k·z1² + (n−k)·z2² is non-negative |
| ChangePoint.SnhtNonNegative | pyhomogeneity/pyhomogeneity.py:71 | every T_k is non-negative |
| ChangePoint.SnhtClosedForm | pyhomogeneity/pyhomogeneity.py:63-71 | T_k as the code computes it equals the textbook n(S_k/std)²/(k(n−k)) on the Buishand deviation S_k |
| ChangePoint.TermClosedForm | pyhomogeneity/pyhomogeneity.py:69-71 | k·z1² + (n−k)·z2², computed from the sums before and after the split, is n(c/std)²/(k(n−k)) |
| ChangePoint.Snht | pyhomogeneity/pyhomogeneity.py:63-73 | loc is in [1, n−1]; the statistic is T at loc, non-negative, at least every T_k, and strictly above every T_k before loc |
| Significance.PValue | pyhomogeneity/pyhomogeneity.py:123-128 | sim·p is the number of simulated statistics above the observed one; p is in [0, 1]; it is 0 exactly when no simulated statistic exceeds the observed one, and 1 exactly when all do |
| Significance.CountGreaterConcat | pyhomogeneity/pyhomogeneity.py:126 | counting splits over batches of simulations |
| Significance.TiesDoNotCount | pyhomogeneity/pyhomogeneity.py:126 | a simulated statistic equal to the observed one is not counted |
| Significance.PValueAntitone | pyhomogeneity/pyhomogeneity.py:126 | a larger observed statistic never gets a larger p-value |
| Significance.RejectByCount | pyhomogeneity/pyhomogeneity.py:145-146 | h = alpha > p holds exactly when fewer than alpha·sim simulated statistics exceed the observed one |
| Homogeneity.IsSpreadOf | pyhomogeneity/pyhomogeneity.py:82-94 | the population and sample standard deviations (`x.std()`, `x.std(ddof=1)`) are 0 exactly when the sum of squared deviations is 0 |
| Homogeneity.Statistic | pyhomogeneity/pyhomogeneity.py:142 | every method's location is in [1, n−1], and the four Buishand methods share one location |
| Homogeneity.SegmentMeans | pyhomogeneity/pyhomogeneity.py:131-135 | the two segments partition the series: loc·mu1 + (n−loc)·mu2 = sum |
| Homogeneity.MeanShift | pyhomogeneity/pyhomogeneity.py:131-135 | mu1 − mu2 = n·S_loc/(loc(n−loc)): the gap has the sign of the deviation at the change point |
| Homogeneity.Prepare | pyhomogeneity/pyhomogeneity.py:139-140 | the cleaned series of a vector or one-column table is its present values, if at least two; other shapes and shorter series are errors |
| Homogeneity.FilteredSeries | pyhomogeneity/pyhomogeneity.py:38-48 | a two-dimensional remainder is refused; a flat one is its present values if there are at least two |
| Homogeneity.Analyse | pyhomogeneity/pyhomogeneity.py:142-153 | stat and loc are the chosen method's statistic and location, with loc in [1, n−1]; h and p are absent exactly when sim is 0; otherwise p is the Monte Carlo p-value of that statistic, in [0, 1], and h = alpha > p; the means are those of the two segments |
| Homogeneity.Test | pyhomogeneity/pyhomogeneity.py:138-153 | cleaning errors propagate; a series with no spread is refused for every method but Pettitt, and only such a series; whenever cleaning succeeds and the spread is usable the outcome is Ok and is the analysis of the cleaned series, with positive standard deviations where the method divides by them |
| Homogeneity.ColumnLikeVector | pyhomogeneity/pyhomogeneity.py:27-29 | a one-column table is tested exactly like the vector it holds |
| Homogeneity.MissingValueIgnored | pyhomogeneity/pyhomogeneity.py:139-140 | inserting a missing value anywhere changes neither the cleaned series nor the outcome |
| Homogeneity.Entry | pyhomogeneity/pyhomogeneity.py:179-185 | every entry point runs the test at level 0.05, and every error it gives is the test's own error; only Pettitt without simulations uses the caller's alpha on the asymptotic p-value, keeping the statistic, location and means |
| Homogeneity.CallerAlphaIgnored | pyhomogeneity/pyhomogeneity.py:179-213 | apart from Pettitt without simulations, two calls differing only in alpha give the same outcome |
| Homogeneity.StatisticAsWritten | pyhomogeneity/pyhomogeneity.py:82 | as written, the statistic is NaN exactly when the method divides by a zero standard deviation |
| Homogeneity.PValueAsWritten | pyhomogeneity/pyhomogeneity.py:126 | as written, a NaN statistic gets p-value 0 |
| Homogeneity.ConstantSeriesAsWritten | pyhomogeneity/pyhomogeneity.py:143-146 | as written, a constant series gets a NaN statistic and a p-value below any positive alpha, so h is true |
| Homogeneity.TwoEqualReadings | pyhomogeneity/pyhomogeneity.py:82 | [5.0, 5.0] with zero standard deviations gives a NaN statistic and a p-value below 0.05 |
| Homogeneity.ConstantSpreadZero | pyhomogeneity/pyhomogeneity.py:82-94 | both standard deviations of a constant series are 0, so every statistic but Pettitt's divides by zero |
| Homogeneity.ConstantSeriesRejected | pyhomogeneity/pyhomogeneity.py:138-153 | corrected: a constant series is refused with a zero-variance error by every method that divides by its spread |

## Left out

- The standard deviations (`x.std()`, `x.std(ddof=1)`) are not computed. They are the `Spread` parameter of `Test`. `IsSpreadOf` ties their squares exactly to the sum of squared deviations, with no square root taken.
- The random normal series of `__mc_p_value` are not modelled. The simulated statistics are a parameter of length `sim`.
- `sim` is a natural number. Python's falsy `None` and `0` are both `0`.
- Homogeneity.Entry: takes `sim` explicitly and has no defaults. In the code, `pettitt_test` defaults to `sim=None`, and so to the asymptotic p-value. The other five entry points default to `sim=20000` (pyhomogeneity/pyhomogeneity.py:156, 190, 218, 246, 274, 302).
- The call to `scipy.stats.rankdata` is replaced by its definition: mid-ranks, with ties averaged.
- ChangePoint.BuishandQ: does not divide by sqrt(n). Q is stated as the largest abs(S_k)/std, because square roots are outside the model.
- ChangePoint.BuishandRange: does not divide by sqrt(n), for the same reason.
- ChangePoint.BuishandLR: follows the code's V_k = S_k/(std·k·(n−k)). There is no absolute value and no square root, so the statistic can be negative. For example, [0.0, 1.0] has S_1 = −0.5. The statistic is stated as the largest V_k.
- Homogeneity.Entry: the asymptotic Pettitt p-value `2·exp(−6U²/(n³+n²))` is a parameter (`analyticP`), because `exp` is outside the model. This value can exceed 1 when U is small.
- Homogeneity.Prepare: refuses a table with more than one column with `MultiColumn`. The code filters its incomplete rows (modelled by `Cleaning.CleanRows`) and then hands the two-dimensional array to the statistic, which numpy treats as flattened data of the wrong length.
- Homogeneity.Prepare: refuses fewer than two observations with `InsufficientData`. In the code, an empty series raises a numpy error. A single observation gives an error for Pettitt, SNHT and LR (the maximum of an empty array) and a NaN statistic for Q and range (0/0). For U it gives 0.0, because the sum over S_1..S_{n−1} is empty.
- Cleaning.Preprocess: refuses other ranks with `ShapeError`. The code prints a warning and then fails on an unset column count. The printed message is not modelled.
- `__missing_values_analysis` with a method other than `'skip'`: the code then filters nothing. No caller passes another method, so it is not modelled.
- The entry points' glue is not modelled. The range and LR entry points (`buishand_range_test`, `buishand_likelihood_ratio_test`, pyhomogeneity/pyhomogeneity.py:269-271 and 297-299) bind `mu22` but return the unbound `mu2`, so as written they raise NameError. `Homogeneity.Entry` gives the outcome they evidently intend. The named-tuple types are built but never used. The docstrings describe other outputs.
- Translating the filtered location into the original label: the code does not do it. `Cleaning.ChangePointLabel` gives the mapping separately.
- Floating point is not modelled. Arithmetic is exact over the reals, so rounding in the sums is not captured.

## Findings

| source | as written | input that shows it | evidently intended | confidence | as-written member | corrected member |
|---|---|---|---|---|---|---|
| pyhomogeneity/pyhomogeneity.py:82 | SNHT and the four Buishand statistics divide by the standard deviation with no guard. A constant series gives 0/0 = NaN. No simulated statistic compares greater than NaN, so `p = 0` and `h = alpha > p` is true: a perfectly homogeneous series is reported as having a change point. | `[5.0, 5.0]` with any `sim > 0` | a series with no spread is refused as degenerate, never declared inhomogeneous | not executed; follows from numpy's NaN comparison rules, exact for series such as `[5.0, 5.0]` whose mean is computed exactly | Homogeneity.ConstantSeriesAsWritten | Homogeneity.ConstantSeriesRejected |
