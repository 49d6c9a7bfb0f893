/** The control flow of `__test` and the public `*_test` entry points:
    preprocess, drop missing values, compute one of the six statistics,
    optionally attach a Monte Carlo p-value and a decision, and report the
    means on either side of the change point. */
module Homogeneity {
  import opened Basics
  import opened Series
  import opened Cleaning
  import opened ChangePoint
  import opened Significance

  /** The six tests the library offers, one per `*_test` entry point. */
  datatype Method =
    | PettittTest
    | SnhtTest
    | BuishandQTest
    | BuishandRangeTest
    | BuishandLRTest
    | BuishandUTest

  /** The two standard deviations of the cleaned series the statistics
      divide by: numpy's `x.std()` (population) and `x.std(ddof=1)`
      (sample). They are computed outside the model. */
  datatype Spread = Spread(population: real, sample: real)

  /** sp really holds the two standard deviations of xs: non-negative, and
      their squares times n and n - 1 give the sum of squared deviations.
      Either deviation is 0 exactly when every observation is the same. */
  predicate IsSpreadOf(xs: seq<real>, sp: Spread): (b: bool)
    requires |xs| >= 2
    ensures b ==> (sp.population == 0.0 <==> SumSqDev(xs) == 0.0)
    ensures b ==> (sp.sample == 0.0 <==> SumSqDev(xs) == 0.0)
  {
    RootVanishes(sp.population, |xs| as real, SumSqDev(xs));
    RootVanishes(sp.sample, (|xs| - 1) as real, SumSqDev(xs));
    && sp.population >= 0.0 && sp.sample >= 0.0
    && sp.population * sp.population * |xs| as real == SumSqDev(xs)
    && sp.sample * sp.sample * (|xs| - 1) as real == SumSqDev(xs)
  }

  /** A non-negative root of ss / n is 0 exactly when ss is. */
  lemma RootVanishes(r: real, n: real, ss: real)
    requires n > 0.0
    ensures r >= 0.0 && r * r * n == ss ==> (r == 0.0 <==> ss == 0.0)
  {
    if r >= 0.0 && r * r * n == ss {
      SquareTimesPositive(r, n, ss);
    }
  }

  /** A positive root times a positive count squares to a positive sum. */
  lemma SquareTimesPositive(r: real, n: real, v: real)
    requires r >= 0.0 && n > 0.0 && v == r * r * n
    ensures r == 0.0 || v > 0.0
  {
    if r > 0.0 {
      PositiveProduct(r, n);
      PositiveProduct(r, r * n);
      assert v == r * (r * n);
    }
  }

  /** A constant series has both standard deviations 0: every statistic
      but Pettitt's would divide by zero. */
  lemma ConstantSpreadZero(xs: seq<real>, sp: Spread)
    requires |xs| >= 2 && IsConstant(xs) && IsSpreadOf(xs, sp)
    ensures sp.population == 0.0 && sp.sample == 0.0
  {
    ConstantHasNoSpread(xs);
  }

  /** Every method but Pettitt's divides by a standard deviation, so it
      needs both of them positive. */
  predicate SpreadNeeded(m: Method, sp: Spread)
  {
    m != PettittTest ==> sp.population > 0.0 && sp.sample > 0.0
  }

  /** The statistic and location `func(x)` returns for each method, with the
      standard deviation each of them uses in the code. The location always
      lies in 1..n-1, and the four Buishand tests share it. */
  function Statistic(m: Method, xs: seq<real>, sp: Spread): (r: Located)
    requires |xs| >= 2
    requires SpreadNeeded(m, sp)
    ensures 1 <= r.loc <= |xs| - 1
    ensures m !in {PettittTest, SnhtTest} ==> r.loc == BuishandLocation(xs)
  {
    match m
    case PettittTest => Pettitt(xs)
    case SnhtTest => Snht(xs, sp.sample)
    case BuishandQTest => BuishandQ(xs, sp.population)
    case BuishandRangeTest => BuishandRange(xs, sp.sample)
    case BuishandLRTest => BuishandLR(xs, sp.population)
    case BuishandUTest => BuishandU(xs, sp.sample)
  }

  /** `__mean`: the means of `x[:loc]` and `x[loc:]`. The two segments
      partition the series, so their lengths weight the means back to the
      total. */
  function SegmentMeans(xs: seq<real>, loc: nat): (mu: (real, real))
    requires 1 <= loc < |xs|
    ensures loc as real * mu.0 + (|xs| - loc) as real * mu.1 == Sum(xs)
  {
    PrefixSuffixSum(xs, loc);
    WeightedParts(xs[..loc], xs[loc..], loc, |xs| - loc);
    (Mean(xs[..loc]), Mean(xs[loc..]))
  }

  lemma WeightedParts(a: seq<real>, b: seq<real>, k: nat, j: nat)
    requires |a| == k > 0 && |b| == j > 0
    ensures k as real * Mean(a) + j as real * Mean(b) == Sum(a) + Sum(b)
  {
  }

  /** n c / (k (n - k)): how far apart the two segment means are when the
      cumulative deviation at the split is c. */
  function Shift(n: real, k: real, c: real): real
    requires 0.0 < k < n
  {
    PositiveProduct(k, n - k);
    n * c / (k * (n - k))
  }

  /** The gap between the two reported means is n S_loc / (loc (n - loc)):
      it has the sign of the cumulative deviation at the change point, and
      the means coincide exactly when S_loc = 0. */
  lemma MeanShift(xs: seq<real>, loc: nat)
    requires 1 <= loc < |xs|
    ensures SegmentMeans(xs, loc).0 - SegmentMeans(xs, loc).1
         == Shift(|xs| as real, loc as real, CumDev(xs)[loc - 1])
  {
    MeanGap(xs, loc);
  }

  lemma MeanGap(xs: seq<real>, loc: nat)
    requires 1 <= loc < |xs|
    ensures Mean(xs[..loc]) - Mean(xs[loc..]) == Shift(|xs| as real, loc as real, CumDev(xs)[loc - 1])
  {
    SegmentPremises(xs, loc);
    ShiftArithmetic(Mean(xs[..loc]), Mean(xs[loc..]), Sum(xs[..loc]), Sum(xs[loc..]), Mean(xs),
      loc as real, (|xs| - loc) as real, |xs| as real, CumDev(xs)[loc - 1]);
  }

  /** The facts about a split that fix the gap between its means: the two
      parts have k and j entries and means mu1 and mu2, they add up to the
      whole, and c is the cumulative deviation at the split. */
  predicate ShiftPremises(mu1: real, mu2: real, before: real, after: real, m: real, k: real, j: real, n: real, c: real)
  {
    && k > 0.0 && j > 0.0 && n == k + j
    && k * mu1 == before && j * mu2 == after
    && before + after == n * m && c == before - k * m
  }

  lemma SegmentPremises(xs: seq<real>, loc: nat)
    requires 1 <= loc < |xs|
    ensures ShiftPremises(Mean(xs[..loc]), Mean(xs[loc..]), Sum(xs[..loc]), Sum(xs[loc..]), Mean(xs),
      loc as real, (|xs| - loc) as real, |xs| as real, CumDev(xs)[loc - 1])
  {
    assert |xs[..loc]| == loc && |xs[loc..]| == |xs| - loc;
    PrefixSuffixSum(xs, loc);
    CumDevPrefix(xs, loc);
  }

  lemma CumDevPrefix(xs: seq<real>, loc: nat)
    requires 1 <= loc <= |xs|
    ensures CumDev(xs)[loc - 1] == Sum(xs[..loc]) - loc as real * Mean(xs)
  {
    CumDevAt(xs, loc - 1);
    assert xs[..loc - 1 + 1] == xs[..loc];
  }

  lemma ShiftArithmetic(mu1: real, mu2: real, before: real, after: real, m: real, k: real, j: real, n: real, c: real)
    requires ShiftPremises(mu1, mu2, before, after, m, k, j, n, c)
    ensures mu1 - mu2 == Shift(n, k, c)
  {
    assert (mu1 - mu2) * (k * j) == (k * mu1) * j - (j * mu2) * k;
    assert (mu1 - mu2) * (k * j) == n * c;
    PositiveProduct(k, j);
    DivideOut(mu1 - mu2, k * j, n * c);
  }

  /** What `__test` returns: the statistic, the change point, the decision
      h and p-value (both absent without simulations), and the means before
      and after the change point. */
  datatype Outcome = Outcome(stat: real, loc: nat, h: Option<bool>, p: Option<real>, mu1: real, mu2: real)

  /** `__preprocessing` followed by `__missing_values_analysis`: the cleaned
      series a statistic is computed on. A vector and a one-column table
      give the present values in order; any other shape, and a series left
      with fewer than two values, is an error. */
  function Prepare(x: NdArray): (r: Result<seq<real>, Error>)
    requires WellFormed(x)
    ensures r.Ok? ==> |r.value| >= 2
    ensures x.OtherRank? ==> r == Err(ShapeError)
    ensures x.Table? && x.columns != 1 ==> r == Err(MultiColumn)
    ensures x.Vector? ==>
      r == if |Clean(x.cells)| < 2 then Err(InsufficientData) else Ok(Clean(x.cells))
    ensures x.Table? && x.columns == 1 ==>
      r == if |Clean(Flatten(x.rows))| < 2 then Err(InsufficientData) else Ok(Clean(Flatten(x.rows)))
  {
    match Preprocess(x)
    case Err(e) => Err(e)
    case Ok((d, _)) =>
      if x.Table? && x.columns == 1 then FlattenRoundTrip(x.rows, d.cells); FilteredSeries(d)
      else FilteredSeries(d)
  }

  /** The missing-value filter on preprocessed data; only a flat series
      goes on to a statistic. */
  function FilteredSeries(d: Data): (r: Result<seq<real>, Error>)
    ensures d.Grid? ==> r == Err(MultiColumn)
    ensures d.Flat? ==> r == if |Clean(d.cells)| < 2 then Err(InsufficientData) else Ok(Clean(d.cells))
  {
    match SkipMissing(d).0
    case Rows(_) => Err(MultiColumn)
    case Series(xs) => if |xs| < 2 then Err(InsufficientData) else Ok(xs)
  }

  /** The body of `__test` once the series is clean: the statistic and
      change point; with simulations, the Monte Carlo p-value of the
      statistic among the simulated ones and the decision alpha > p;
      without, h and p are absent; and the two segment means. */
  function Analyse(m: Method, xs: seq<real>, alpha: real, sim: nat, simulated: seq<real>, sp: Spread)
    : (o: Outcome)
    requires |xs| >= 2
    requires |simulated| == sim
    requires SpreadNeeded(m, sp)
    ensures o.stat == Statistic(m, xs, sp).stat && o.loc == Statistic(m, xs, sp).loc
    ensures 1 <= o.loc <= |xs| - 1
    ensures m !in {PettittTest, SnhtTest} ==> o.loc == BuishandLocation(xs)
    ensures (o.h.None? <==> sim == 0) && (o.p.None? <==> sim == 0)
    ensures sim > 0 ==>
      && o.p == Some(PValue(simulated, o.stat))
      && 0.0 <= o.p.value <= 1.0
      && o.h == Some(alpha > o.p.value)
    ensures (o.mu1, o.mu2) == SegmentMeans(xs, o.loc)
  {
    var s := Statistic(m, xs, sp);
    var mu := SegmentMeans(xs, s.loc);
    if sim == 0 then Outcome(s.stat, s.loc, None, None, mu.0, mu.1)
    else
      var p := PValue(simulated, s.stat);
      Outcome(s.stat, s.loc, Some(alpha > p), Some(p), mu.0, mu.1)
  }

  /** `__test`: clean the input, then analyse it. A series with no spread is
      rejected for every test that divides by its standard deviation. */
  function Test(m: Method, x: NdArray, alpha: real, sim: nat, simulated: seq<real>, sp: Spread)
    : (r: Result<Outcome, Error>)
    requires WellFormed(x)
    requires |simulated| == sim
    requires Prepare(x).Ok? ==> IsSpreadOf(Prepare(x).value, sp)
    ensures Prepare(x).Err? ==> r == Err(Prepare(x).error)
    ensures Prepare(x).Ok? ==>
      (r == Err(DegenerateVariance) <==> m != PettittTest && SumSqDev(Prepare(x).value) == 0.0)
    ensures Prepare(x).Ok? && !(m != PettittTest && SumSqDev(Prepare(x).value) == 0.0) ==> r.Ok?
    ensures r.Ok? ==>
      && Prepare(x).Ok?
      && SpreadNeeded(m, sp)
      && r.value == Analyse(m, Prepare(x).value, alpha, sim, simulated, sp)
  {
    match Prepare(x)
    case Err(e) => Err(e)
    case Ok(xs) =>
      if m != PettittTest && SumSqDev(xs) == 0.0 then Err(DegenerateVariance)
      else Ok(Analyse(m, xs, alpha, sim, simulated, sp))
  }

  /** A one-column table is tested exactly like the vector it holds. */
  lemma ColumnLikeVector(cells: seq<Cell>)
    ensures WellFormed(Table(Column(cells), 1))
    ensures Prepare(Table(Column(cells), 1)) == Prepare(Vector(cells))
  {
    FlattenRoundTrip(Column(cells), cells);
  }

  /** A missing value anywhere in a vector changes nothing in the outcome:
      it is dropped before any statistic is computed. */
  lemma MissingValueIgnored(m: Method, a: seq<Cell>, b: seq<Cell>, alpha: real, sim: nat,
                            simulated: seq<real>, sp: Spread)
    requires |simulated| == sim
    requires Prepare(Vector(a + b)).Ok? ==> IsSpreadOf(Prepare(Vector(a + b)).value, sp)
    ensures Prepare(Vector(a + [None] + b)) == Prepare(Vector(a + b))
    ensures Test(m, Vector(a + [None] + b), alpha, sim, simulated, sp)
         == Test(m, Vector(a + b), alpha, sim, simulated, sp)
  {
    InsertMissing(a, b);
  }

  /** The significance level every public entry point hands to `__test`. */
  const FixedAlpha: real := 0.05

  /** The public `*_test` functions. Each runs `__test` at level 0.05
      whatever alpha the caller passes; only `pettitt_test` without
      simulations uses the caller's alpha, deciding h = alpha > p on the
      asymptotic p-value (analyticP, computed outside the model) that
      replaces the absent one. As written, `buishand_range_test` and
      `buishand_likelihood_ratio_test` bind the second mean to `mu22` and
      return the unbound `mu2`, so they raise NameError; for them this
      function gives the outcome they evidently intend. */
  function Entry(m: Method, x: NdArray, alpha: real, sim: nat, simulated: seq<real>, sp: Spread,
                 analyticP: real): (r: Result<Outcome, Error>)
    requires WellFormed(x)
    requires |simulated| == sim
    requires Prepare(x).Ok? ==> IsSpreadOf(Prepare(x).value, sp)
    ensures m != PettittTest || sim > 0 ==> r == Test(m, x, FixedAlpha, sim, simulated, sp)
    ensures r.Err? ==> r == Test(m, x, FixedAlpha, sim, simulated, sp)
    ensures m == PettittTest && sim == 0 ==>
      && (r.Ok? <==> Test(m, x, FixedAlpha, sim, simulated, sp).Ok?)
      && (r.Ok? ==>
            var t := Test(m, x, FixedAlpha, sim, simulated, sp).value;
            && (r.value.stat, r.value.loc, r.value.mu1, r.value.mu2) == (t.stat, t.loc, t.mu1, t.mu2)
            && r.value.p == Some(analyticP)
            && r.value.h == Some(alpha > analyticP))
  {
    var r := Test(m, x, FixedAlpha, sim, simulated, sp);
    if m == PettittTest && sim == 0 && r.Ok? then
      Ok(r.value.(h := Some(alpha > analyticP), p := Some(analyticP)))
    else r
  }

  /** Without simulations the level the caller asks for is honoured only by
      the Pettitt test: every other outcome is the same at any two levels. */
  lemma CallerAlphaIgnored(m: Method, x: NdArray, alpha1: real, alpha2: real, sim: nat,
                           simulated: seq<real>, sp: Spread, analyticP: real)
    requires WellFormed(x)
    requires |simulated| == sim
    requires Prepare(x).Ok? ==> IsSpreadOf(Prepare(x).value, sp)
    requires m != PettittTest || sim > 0
    ensures Entry(m, x, alpha1, sim, simulated, sp, analyticP)
         == Entry(m, x, alpha2, sim, simulated, sp, analyticP)
  {
  }

  /** As written, every statistic but Pettitt's divides by the standard
      deviation with no guard, so a series with no spread gets 0/0, a NaN
      (None here). */
  function StatisticAsWritten(m: Method, xs: seq<real>, sp: Spread): (s: Option<real>)
    requires |xs| >= 2 && IsSpreadOf(xs, sp)
    ensures s.None? <==> m != PettittTest && SumSqDev(xs) == 0.0
    ensures s.Some? ==> SpreadNeeded(m, sp) && s.value == Statistic(m, xs, sp).stat
  {
    if m != PettittTest && SumSqDev(xs) == 0.0 then None
    else Some(Statistic(m, xs, sp).stat)
  }

  /** As written, `(res[:,0] > stat).sum() / sim`: no simulated statistic
      compares greater than a NaN, so the p-value of a NaN statistic is 0. */
  function PValueAsWritten(simulated: seq<real>, stat: Option<real>): (p: real)
    requires |simulated| > 0
    ensures stat.Some? ==> p == PValue(simulated, stat.value)
    ensures stat.None? ==> p == 0.0
  {
    match stat
    case None => 0.0
    case Some(v) => PValue(simulated, v)
  }

  /** As written, a series with every value equal (perfectly homogeneous) is
      declared inhomogeneous by every test but Pettitt's: its statistic is
      NaN, its p-value 0, and h = alpha > 0 holds at any positive level. */
  lemma ConstantSeriesAsWritten(m: Method, xs: seq<real>, sp: Spread, simulated: seq<real>, alpha: real)
    requires |xs| >= 2 && IsConstant(xs) && IsSpreadOf(xs, sp)
    requires m != PettittTest && |simulated| > 0 && alpha > 0.0
    ensures StatisticAsWritten(m, xs, sp).None?
    ensures alpha > PValueAsWritten(simulated, StatisticAsWritten(m, xs, sp))
  {
    ConstantHasNoSpread(xs);
  }

  /** The smallest instance: two readings of 5.0 and standard deviations of
      zero, as numpy computes them for it. */
  lemma TwoEqualReadings(m: Method, simulated: seq<real>)
    requires m != PettittTest && |simulated| > 0
    ensures IsSpreadOf([5.0, 5.0], Spread(0.0, 0.0))
    ensures StatisticAsWritten(m, [5.0, 5.0], Spread(0.0, 0.0)) == None
    ensures FixedAlpha > PValueAsWritten(simulated, None)
  {
    var xs := [5.0, 5.0];
    assert IsConstant(xs);
    ConstantHasNoSpread(xs);
  }

  /** Corrected: such a series is reported as having no variance instead of
      being given a decision. */
  lemma ConstantSeriesRejected(m: Method, x: NdArray, alpha: real, sim: nat, simulated: seq<real>, sp: Spread)
    requires WellFormed(x) && |simulated| == sim
    requires Prepare(x).Ok? && IsConstant(Prepare(x).value) && IsSpreadOf(Prepare(x).value, sp)
    requires m != PettittTest
    ensures Test(m, x, alpha, sim, simulated, sp) == Err(DegenerateVariance)
  {
    ConstantHasNoSpread(Prepare(x).value);
  }
}
