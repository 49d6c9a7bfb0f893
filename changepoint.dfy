/** The six change-point statistics (`__pettitt`, `__snht`, `__buishand_q`,
    `__buishand_range`, `__buishand_lr`, `__buishand_u`). Each maps a cleaned
    series of n >= 2 observations to a statistic and a 1-based location.
    Standard deviations are passed in as a positive divisor `sd`; the final
    division by sqrt(n) of Q and R is not modelled. */
module ChangePoint {
  import opened Series
  import opened Ranks

  /** A statistic with the location of the change point it points at. */
  datatype Located = Located(stat: real, loc: nat)

  // Pettitt

  /** U_k = 2 (r_1 + ... + r_k) - k (n + 1) for k = 1..n-1, over mid-ranks
      r; entry k - 1 holds U_k. */
  function PettittU(xs: seq<real>): (u: seq<real>)
    requires |xs| >= 2
    ensures |u| == |xs| - 1
  {
    var r := MidRanks(xs);
    seq(|xs| - 1, i requires 0 <= i < |xs| - 1 => 2.0 * Sum(r[..i + 1]) - (i + 1) as real * (|xs| + 1) as real)
  }

  /** `U.max(), U.argmax() + 1`: the largest U_k and the first k reaching it. */
  function Pettitt(xs: seq<real>): (r: Located)
    requires |xs| >= 2
    ensures 1 <= r.loc <= |xs| - 1
    ensures r.stat == PettittU(xs)[r.loc - 1]
    ensures forall k :: 0 <= k < |xs| - 1 ==> PettittU(xs)[k] <= r.stat
    ensures forall k :: 0 <= k < r.loc - 1 ==> PettittU(xs)[k] < r.stat
  {
    var u := PettittU(xs);
    Located(Max(u), ArgMax(u) + 1)
  }

  /** The rank-sum form computes Pettitt's own definition: U_k is the sum of
      sgn(x_i - x_j) over every i before the split and every j after it. In
      particular each U_k is an integer. */
  lemma PettittMatchesDefinition(xs: seq<real>, k: nat)
    requires 1 <= k < |xs|
    ensures PettittU(xs)[k - 1] == PairSigns(xs[..k], xs[k..]) as real
  {
    assert PairSigns(xs[..k], xs) == PairSigns(xs[..k], xs[k..]) by {
      assert xs == xs[..k] + xs[k..];
      PairSignsSplitAfter(xs[..k], xs[..k], xs[k..]);
      PairSignsAntisymmetric(xs[..k], xs[..k]);
    }
    assert 2.0 * Sum(MidRanks(xs)[..k]) - k as real * (|xs| + 1) as real == PairSigns(xs[..k], xs) as real by {
      RankPrefixSigns(xs, k);
      CastProduct(k, |xs| + 1);
    }
    PettittUAt(xs, k);
  }

  lemma PettittUAt(xs: seq<real>, k: nat)
    requires 1 <= k < |xs|
    ensures PettittU(xs)[k - 1] == 2.0 * Sum(MidRanks(xs)[..k]) - k as real * (|xs| + 1) as real
  {
    assert k - 1 + 1 == k;
  }

  /** Every U_k is a whole number. */
  lemma PettittIntegral(xs: seq<real>)
    requires |xs| >= 2
    ensures forall i :: 0 <= i < |xs| - 1 ==> PettittU(xs)[i] == PettittU(xs)[i].Floor as real
  {
    forall i | 0 <= i < |xs| - 1
      ensures PettittU(xs)[i] == PettittU(xs)[i].Floor as real
    {
      PettittMatchesDefinition(xs, i + 1);
    }
  }

  /** U is twice the cumulative deviation of the mid-ranks from their mean
      (n + 1) / 2: the rank analogue of the Buishand S_k. */
  lemma PettittIsRankDeviation(xs: seq<real>, i: nat)
    requires |xs| >= 2 && i < |xs| - 1
    ensures PettittU(xs)[i] == 2.0 * CumDev(MidRanks(xs))[i]
  {
    RankDeviationFacts(xs, i);
    RankDeviationArith(PettittU(xs)[i], Sum(MidRanks(xs)[..i + 1]), CumDev(MidRanks(xs))[i],
      (i + 1) as real, Mean(MidRanks(xs)), (|xs| + 1) as real);
  }

  /** u = 2 s - k n1 and c = s - k m, with m = n1 / 2. */
  predicate RankDeviationPremises(u: real, s: real, c: real, k: real, m: real, n1: real)
  {
    u == 2.0 * s - k * n1 && c == s - k * m && 2.0 * m == n1
  }

  lemma RankDeviationFacts(xs: seq<real>, i: nat)
    requires |xs| >= 2 && i < |xs| - 1
    ensures RankDeviationPremises(PettittU(xs)[i], Sum(MidRanks(xs)[..i + 1]), CumDev(MidRanks(xs))[i],
      (i + 1) as real, Mean(MidRanks(xs)), (|xs| + 1) as real)
  {
    var r := MidRanks(xs);
    assert PettittU(xs)[i] == 2.0 * Sum(r[..i + 1]) - (i + 1) as real * (|xs| + 1) as real by {
      PettittUAt(xs, i + 1);
    }
    assert CumDev(r)[i] == Sum(r[..i + 1]) - (i + 1) as real * Mean(r) by {
      CumDevAt(r, i);
    }
    assert 2.0 * Mean(r) == (|xs| + 1) as real by {
      MeanRank(xs);
    }
  }

  lemma RankDeviationArith(u: real, s: real, c: real, k: real, m: real, n1: real)
    requires RankDeviationPremises(u, s, c, k, m, n1)
    ensures u == 2.0 * c
  {
    assert 2.0 * (k * m) == k * n1;
  }

  /** The mid-ranks average (n + 1) / 2. */
  lemma MeanRank(xs: seq<real>)
    requires |xs| > 0
    ensures 2.0 * Mean(MidRanks(xs)) == (|xs| + 1) as real
  {
    RankSum(xs);
    TriangularMean(MidRanks(xs));
  }

  /** A series of n values summing to n (n + 1) / 2 has mean (n + 1) / 2. */
  lemma TriangularMean(r: seq<real>)
    requires |r| > 0
    requires 2.0 * Sum(r) == (|r| * (|r| + 1)) as real
    ensures 2.0 * Mean(r) == (|r| + 1) as real
  {
    CastProduct(|r|, |r| + 1);
    MeanOfRanks(|r| as real, (|r| + 1) as real, Mean(r), Sum(r));
  }

  lemma CumDevAt(r: seq<real>, i: nat)
    requires i < |r|
    ensures CumDev(r)[i] == Sum(r[..i + 1]) - (i + 1) as real * Mean(r)
  {
  }

  lemma CastProduct(a: nat, b: nat)
    ensures (a * b) as real == a as real * b as real
  {
  }

  lemma MeanOfRanks(n: real, n1: real, m: real, s: real)
    requires n > 0.0
    requires n * m == s
    requires 2.0 * s == n * n1
    ensures 2.0 * m == n1
  {
    var d := 2.0 * m - n1;
    assert n * d == 0.0;
    assert d == (n * d) / n;
  }

  /** The test sees only the order of the observations: series with the same
      pattern of order and ties get the same statistic and location. */
  lemma PettittOrderInvariant(xs: seq<real>, ys: seq<real>)
    requires |xs| >= 2 && SameOrder(xs, ys)
    ensures Pettitt(xs) == Pettitt(ys)
  {
    SameOrderSameRanks(xs, ys);
    assert PettittU(xs) == PettittU(ys);
  }

  // Cumulative deviations (Buishand family)

  /** `abs(S).argmax() + 1`, shared by the four Buishand tests: the first k
      where |S_k| is largest. Since S_n = 0 it never points past n - 1, and
      when every S_k is zero it is 1. */
  function BuishandLocation(xs: seq<real>): (loc: nat)
    requires |xs| >= 2
    ensures 1 <= loc <= |xs| - 1
    ensures forall k :: 0 <= k < |xs| ==> Abs(CumDev(xs))[k] <= Abs(CumDev(xs))[loc - 1]
    ensures forall k :: 0 <= k < loc - 1 ==> Abs(CumDev(xs))[k] < Abs(CumDev(xs))[loc - 1]
    ensures (forall k :: 0 <= k < |xs| ==> CumDev(xs)[k] == 0.0) ==> loc == 1
  {
    var s := CumDev(xs);
    FirstPeakBeforeEnd(s);
    ArgMax(Abs(s)) + 1
  }

  /** A series of deviations ending in 0 has its first largest magnitude
      before the end, and at the start when all of it is 0. */
  lemma FirstPeakBeforeEnd(s: seq<real>)
    requires |s| >= 2 && s[|s| - 1] == 0.0
    ensures ArgMax(Abs(s)) < |s| - 1
    ensures (forall k :: 0 <= k < |s| ==> s[k] == 0.0) ==> ArgMax(Abs(s)) == 0
  {
    var a := Abs(s);
    var j := ArgMax(a);
    assert a[|s| - 1] == 0.0;
    if forall k :: 0 <= k < |s| ==> s[k] == 0.0 {
      assert a[j] == 0.0 && a[0] == 0.0;
    }
  }

  /** `Q = abs(S / std).max()`: the largest standardised deviation. It is
      reached at the reported location. */
  function BuishandQ(xs: seq<real>, sd: real): (r: Located)
    requires |xs| >= 2 && sd > 0.0
    ensures r.loc == BuishandLocation(xs)
    ensures r.stat == Abs(CumDev(xs))[r.loc - 1] / sd
    ensures forall k :: 0 <= k < |xs| ==> Abs(CumDev(xs))[k] / sd <= r.stat
  {
    QPeak(xs, sd);
    Located(Max(Abs(Scaled(CumDev(xs), sd))), BuishandLocation(xs))
  }

  /** The peak of |S| / sd, in terms of the peak of |S|. */
  lemma QPeak(xs: seq<real>, sd: real)
    requires |xs| >= 2 && sd > 0.0
    ensures Max(Abs(Scaled(CumDev(xs), sd))) == Abs(CumDev(xs))[BuishandLocation(xs) - 1] / sd
    ensures forall k :: 0 <= k < |xs| ==> Abs(CumDev(xs))[k] / sd <= Max(Abs(Scaled(CumDev(xs), sd)))
  {
    ScaledPeak(CumDev(xs), sd, BuishandLocation(xs) - 1);
  }

  /** The peak of |s| / sd sits where the peak of |s| does. */
  lemma ScaledPeak(s: seq<real>, sd: real, j: nat)
    requires sd > 0.0 && j < |s|
    requires forall k :: 0 <= k < |s| ==> Abs(s)[k] <= Abs(s)[j]
    ensures Max(Abs(Scaled(s, sd))) == Abs(s)[j] / sd
    ensures forall k :: 0 <= k < |s| ==> Abs(s)[k] / sd <= Max(Abs(Scaled(s, sd)))
  {
    ScaledAbsOrder(s, sd, j);
    MaxIs(Abs(Scaled(s, sd)), j);
  }

  /** Dividing by a positive sd keeps the order of the absolute deviations. */
  lemma ScaledAbsOrder(s: seq<real>, sd: real, j: nat)
    requires sd > 0.0 && j < |s|
    requires forall k :: 0 <= k < |s| ==> Abs(s)[k] <= Abs(s)[j]
    ensures forall k :: 0 <= k < |s| ==> Abs(Scaled(s, sd))[k] == Abs(s)[k] / sd
    ensures forall k :: 0 <= k < |s| ==> Abs(Scaled(s, sd))[k] <= Abs(Scaled(s, sd))[j]
  {
    forall k | 0 <= k < |s|
      ensures Abs(Scaled(s, sd))[k] == Abs(s)[k] / sd
    {
      ScaleAbs(s[k], sd);
    }
    forall k | 0 <= k < |s|
      ensures Abs(s)[k] / sd <= Abs(s)[j] / sd
    {
      DivideMonotone(Abs(s)[k], Abs(s)[j], sd);
    }
  }

  lemma ScaleAbs(x: real, sd: real)
    requires sd > 0.0
    ensures (if x / sd < 0.0 then -(x / sd) else x / sd) == (if x < 0.0 then -x else x) / sd
  {
  }

  lemma DivideMonotone(a: real, b: real, sd: real)
    requires sd > 0.0 && a <= b
    ensures a / sd <= b / sd
  {
  }

  /** `R = S_std.max() - S_std.min()`: the range of the standardised
      deviations, which is the range of S divided by sd and never negative. */
  function BuishandRange(xs: seq<real>, sd: real): (r: Located)
    requires |xs| >= 2 && sd > 0.0
    ensures r.loc == BuishandLocation(xs)
    ensures r.stat == (Max(CumDev(xs)) - Min(CumDev(xs))) / sd
    ensures r.stat >= 0.0
  {
    RangeSpan(xs, sd);
    Located(Max(Scaled(CumDev(xs), sd)) - Min(Scaled(CumDev(xs), sd)), BuishandLocation(xs))
  }

  /** The range of S / sd is the range of S divided by sd. */
  lemma RangeSpan(xs: seq<real>, sd: real)
    requires |xs| >= 2 && sd > 0.0
    ensures Max(Scaled(CumDev(xs), sd)) - Min(Scaled(CumDev(xs), sd)) == (Max(CumDev(xs)) - Min(CumDev(xs))) / sd
    ensures Max(Scaled(CumDev(xs), sd)) - Min(Scaled(CumDev(xs), sd)) >= 0.0
  {
    ScaledExtremes(CumDev(xs), sd);
    SpanNonNegative(Scaled(CumDev(xs), sd));
  }

  lemma SpanNonNegative(a: seq<real>)
    requires |a| > 0
    ensures Max(a) - Min(a) >= 0.0
  {
    assert Min(a) <= a[0] <= Max(a);
  }

  /** Dividing by a positive sd divides the largest and smallest entries. */
  lemma ScaledExtremes(s: seq<real>, sd: real)
    requires |s| > 0 && sd > 0.0
    ensures Max(Scaled(s, sd)) == Max(s) / sd && Min(Scaled(s, sd)) == Min(s) / sd
    ensures Max(Scaled(s, sd)) - Min(Scaled(s, sd)) == (Max(s) - Min(s)) / sd
  {
    var a := Scaled(s, sd);
    var hi := ArgMax(s);
    var lo := ArgMin(s);
    forall k | 0 <= k < |s|
      ensures a[k] <= a[hi] && a[lo] <= a[k]
    {
      DivideMonotone(s[k], s[hi], sd);
      DivideMonotone(s[lo], s[k], sd);
    }
    MaxIs(a, hi);
    MinIs(a, lo);
    DivideDifference(s[hi], s[lo], sd);
  }

  lemma DivideDifference(x: real, y: real, sd: real)
    requires sd > 0.0
    ensures x / sd - y / sd == (x - y) / sd
  {
  }

  /** The standardised S_n is 0 too. */
  lemma ScaledEndsInZero(xs: seq<real>, sd: real)
    requires |xs| >= 2 && sd > 0.0
    ensures Scaled(CumDev(xs), sd)[|xs| - 1] == 0.0
  {
  }

  /** In a series holding a 0, the range lies between the largest magnitude
      and twice it. */
  lemma RangeAndPeak(a: seq<real>, z: nat)
    requires z < |a| && a[z] == 0.0
    ensures Max(Abs(a)) <= Max(a) - Min(a) <= 2.0 * Max(Abs(a))
  {
    var j := ArgMax(Abs(a));
    assert Abs(a)[ArgMax(a)] >= a[ArgMax(a)];
    assert Abs(a)[ArgMin(a)] >= -a[ArgMin(a)];
    assert a[z] <= Max(a) && Min(a) <= a[z];
    assert Abs(a)[j] == a[j] || Abs(a)[j] == -a[j];
  }

  /** Q and R measured with the same sd: because S_n = 0 the range is at
      least the largest magnitude and at most twice it. */
  lemma QWithinRange(xs: seq<real>, sd: real)
    requires |xs| >= 2 && sd > 0.0
    ensures BuishandQ(xs, sd).stat <= BuishandRange(xs, sd).stat <= 2.0 * BuishandQ(xs, sd).stat
  {
    var s := CumDev(xs);
    var a := Scaled(s, sd);
    ScaledPeak(s, sd, BuishandLocation(xs) - 1);
    ScaledEndsInZero(xs, sd);
    RangeAndPeak(a, |xs| - 1);
  }

  /** The ratios S_k / (sd k (n - k)) for k = 1..n-1 (`V` in `__buishand_lr`). */
  function LrTerms(xs: seq<real>, sd: real): (v: seq<real>)
    requires |xs| >= 2 && sd > 0.0
    ensures |v| == |xs| - 1
  {
    var s := CumDev(xs);
    var n := |xs|;
    seq(n - 1, i requires 0 <= i < n - 1 => s[i] / (sd * (i + 1) as real * (n - (i + 1)) as real))
  }

  /** `V.max()` over the ratios, reported at the Buishand location rather
      than at the ratio's own arg-max. */
  function BuishandLR(xs: seq<real>, sd: real): (r: Located)
    requires |xs| >= 2 && sd > 0.0
    ensures r.loc == BuishandLocation(xs)
    ensures r.stat in LrTerms(xs, sd)
    ensures forall k :: 0 <= k < |xs| - 1 ==> LrTerms(xs, sd)[k] <= r.stat
  {
    Located(Max(LrTerms(xs, sd)), BuishandLocation(xs))
  }

  /** `U = (S_std[:n-1]**2).sum() / (n (n + 1))`. */
  function BuishandU(xs: seq<real>, sd: real): (r: Located)
    requires |xs| >= 2 && sd > 0.0
    ensures r.loc == BuishandLocation(xs)
    ensures r.stat >= 0.0
    ensures r.stat * (sd * sd) == PerPairs(SumSqFrom(CumDev(xs)[..|xs| - 1], 0.0), |xs|)
  {
    Located(StandardisedMeanSquare(CumDev(xs), sd, |xs|), BuishandLocation(xs))
  }

  /** The mean square of d / sd, U's formula on a deviation sequence d: it
      is the mean square of d itself divided by sd^2. */
  function StandardisedMeanSquare(d: seq<real>, sd: real, n: nat): (u: real)
    requires n == |d| >= 2 && sd > 0.0
    ensures u >= 0.0
    ensures u * (sd * sd) == PerPairs(SumSqFrom(d[..n - 1], 0.0), n)
  {
    MeanSquareScaled(d, sd, n);
    MeanSquare(Scaled(d, sd))
  }

  /** Standardising first and squaring after is squaring and dividing by
      sd^2: U sd^2 = (S_1^2 + ... + S_{n-1}^2) / (n (n + 1)). */
  lemma MeanSquareScaled(s: seq<real>, sd: real, n: nat)
    requires n == |s| >= 2 && sd > 0.0
    ensures MeanSquare(Scaled(s, sd)) * (sd * sd) == PerPairs(SumSqFrom(s[..n - 1], 0.0), n)
  {
    var t := s[..|s| - 1];
    assert MeanSquare(Scaled(s, sd)) == PerPairs(SumSqFrom(Scaled(t, sd), 0.0), |s|) by {
      assert Scaled(s, sd)[..|s| - 1] == Scaled(t, sd);
    }
    assert SumSqFrom(Scaled(t, sd), 0.0) * (sd * sd) == SumSqFrom(t, 0.0) by {
      SquareSumScaled(t, sd);
    }
    PerPairsScale(SumSqFrom(Scaled(t, sd), 0.0), SumSqFrom(t, 0.0), sd * sd, |s|);
  }

  /** The sum of squares of s / sd, times sd^2, is the sum of squares of s. */
  lemma SquareSumScaled(s: seq<real>, sd: real)
    requires sd > 0.0
    ensures SumSqFrom(Scaled(s, sd), 0.0) * (sd * sd) == SumSqFrom(s, 0.0)
  {
    forall i | 0 <= i < |s|
      ensures Scaled(s, sd)[i] * Scaled(s, sd)[i] * (sd * sd) == s[i] * s[i]
    {
      SquareRescaled(s[i], sd);
    }
    SquaresScale(s, Scaled(s, sd), sd * sd);
  }

  lemma SquareRescaled(x: real, sd: real)
    requires sd > 0.0
    ensures (x / sd) * (x / sd) * (sd * sd) == x * x
  {
    assert (x / sd) * sd == x;
    assert (x / sd) * (x / sd) * (sd * sd) == ((x / sd) * sd) * ((x / sd) * sd);
  }

  /** Entries whose squares scale by q give sums of squares that scale by q. */
  lemma {:induction false} SquaresScale(a: seq<real>, b: seq<real>, q: real)
    requires |a| == |b|
    requires forall i :: 0 <= i < |a| ==> b[i] * b[i] * q == a[i] * a[i]
    ensures SumSqFrom(b, 0.0) * q == SumSqFrom(a, 0.0)
  {
    if |a| > 0 {
      var n := |a| - 1;
      SquaresScale(a[..n], b[..n], q);
      SquaresStep(SumSqFrom(b[..n], 0.0), SumSqFrom(a[..n], 0.0), b[n], a[n], q);
    }
  }

  lemma SquaresStep(sb: real, sa: real, y: real, x: real, q: real)
    requires sb * q == sa && y * y * q == x * x
    ensures (sb + (y - 0.0) * (y - 0.0)) * q == sa + (x - 0.0) * (x - 0.0)
  {
  }

  lemma PerPairsScale(x: real, y: real, q: real, n: nat)
    requires n >= 1 && x * q == y
    ensures PerPairs(x, n) * q == PerPairs(y, n)
  {
    PairCountPositive(n);
  }

  /** The squares of all but the last entry of a, over n (n + 1). */
  function MeanSquare(a: seq<real>): (u: real)
    requires |a| >= 2
    ensures u >= 0.0
  {
    PerPairs(SumSqFrom(a[..|a| - 1], 0.0), |a|)
  }

  /** x / (n (n + 1)); it keeps the sign and the order of x. */
  function PerPairs(x: real, n: nat): (r: real)
    requires n >= 1
    ensures x >= 0.0 ==> r >= 0.0
  {
    PairCountPositive(n);
    if x >= 0.0 then
      DivideMonotone(0.0, x, n as real * (n + 1) as real);
      x / (n as real * (n + 1) as real)
    else
      x / (n as real * (n + 1) as real)
  }

  lemma PerPairsMonotone(x: real, y: real, n: nat)
    requires n >= 1 && x <= y
    ensures PerPairs(x, n) <= PerPairs(y, n)
  {
    PairCountPositive(n);
    DivideMonotone(x, y, n as real * (n + 1) as real);
  }

  /** (n - 1) q^2 / (n (n + 1)): the value U would take if every
      standardised deviation but the last had magnitude q. */
  function UCeiling(n: nat, q: real): real
    requires n >= 1
  {
    PerPairs((n - 1) as real * (q * q), n)
  }

  /** With Q and U on the same sd, U is at most (n - 1) Q^2 / (n (n + 1)):
      each standardised square is at most Q^2. */
  lemma UBelowQ(xs: seq<real>, sd: real)
    requires |xs| >= 2 && sd > 0.0
    ensures BuishandU(xs, sd).stat <= UCeiling(|xs|, Max(Abs(Scaled(CumDev(xs), sd))))
  {
    MeanSquareBound(Scaled(CumDev(xs), sd));
  }

  lemma MeanSquareBound(a: seq<real>)
    requires |a| >= 2
    ensures MeanSquare(a) <= UCeiling(|a|, Max(Abs(a)))
  {
    MeanSquareWithin(a, Max(Abs(a)));
  }

  /** The sum that U divides by n (n + 1) leaves out the last entry; when
      every magnitude is at most q it is at most (n - 1) q^2. */
  lemma MeanSquareWithin(a: seq<real>, q: real)
    requires |a| >= 2
    requires forall k :: 0 <= k < |a| ==> Abs(a)[k] <= q
    ensures MeanSquare(a) <= UCeiling(|a|, q)
  {
    assert MeanSquare(a) == PerPairs(SumSqFrom(a[..|a| - 1], 0.0), |a|);
    assert UCeiling(|a|, q) == PerPairs((|a| - 1) as real * (q * q), |a|);
    PrefixSquaresBelow(a, q);
    PerPairsMonotone(SumSqFrom(a[..|a| - 1], 0.0), (|a| - 1) as real * (q * q), |a|);
  }

  lemma PrefixSquaresBelow(a: seq<real>, q: real)
    requires |a| >= 2
    requires forall k :: 0 <= k < |a| ==> Abs(a)[k] <= q
    ensures SumSqFrom(a[..|a| - 1], 0.0) <= (|a| - 1) as real * (q * q)
  {
    var t := a[..|a| - 1];
    assert SumSqFrom(t, 0.0) <= |t| as real * (q * q) by {
      forall k | 0 <= k < |t|
        ensures t[k] * t[k] <= q * q
      {
        assert t[k] == a[k];
        SquareBelow(t[k], Abs(a)[k], q);
      }
      SquareSumBound(t, q * q);
    }
  }

  lemma PairCountPositive(n: nat)
    requires n >= 1
    ensures n as real * (n + 1) as real > 0.0
  {
  }

  /** A series whose squares stay within q has sum of squares at most |s| q. */
  lemma {:induction false} SquareSumBound(s: seq<real>, q: real)
    requires forall k :: 0 <= k < |s| ==> s[k] * s[k] <= q
    ensures SumSqFrom(s, 0.0) <= |s| as real * q
  {
    if |s| > 0 {
      var t := s[..|s| - 1];
      assert SumSqFrom(t, 0.0) <= |t| as real * q by {
        assert forall k :: 0 <= k < |t| ==> t[k] == s[k];
        SquareSumBound(t, q);
      }
      BoundStep(SumSqFrom(t, 0.0), s[|s| - 1] * s[|s| - 1], |t|, q);
    }
  }

  /** One more term within q raises a bound of n q to (n + 1) q. */
  lemma BoundStep(a: real, b: real, n: nat, q: real)
    requires a <= n as real * q && b <= q
    ensures a + b <= (n + 1) as real * q
  {
  }

  /** Squares grow with magnitude. */
  lemma SquareBelow(d: real, m: real, p: real)
    requires 0.0 <= m <= p && (m == d || m == -d)
    ensures d * d <= p * p
  {
    assert d * d == m * m;
    assert m * m <= m * p;
    assert m * p <= p * p;
  }

  // Standard normal homogeneity test

  /** T_k = k z1^2 + (n - k) z2^2 for k = 1..n-1, where z1 and z2 are the
      standardised means before and after the split, measured from the
      overall mean (`__snht`); entry k - 1 holds T_k. */
  function SnhtT(xs: seq<real>, sd: real): (t: seq<real>)
    requires |xs| >= 2 && sd > 0.0
    ensures |t| == |xs| - 1
  {
    var n := |xs|;
    seq(n - 1, i requires 0 <= i < n - 1 =>
      SnhtTerm(Sum(xs[..i + 1]), Sum(xs[i + 1..]), Mean(xs), (i + 1) as real, (n - (i + 1)) as real, sd))
  }

  /** One T_k from the sums before and after the split, the overall mean m,
      the segment lengths k and j = n - k, and the standard deviation. It is
      never negative. */
  function SnhtTerm(before: real, after: real, m: real, k: real, j: real, sd: real): (t: real)
    requires k > 0.0 && j > 0.0 && sd > 0.0
    ensures t >= 0.0
  {
    var z1 := ((before - k * m) / sd) / k;
    var z2 := ((after - j * m) / sd) / j;
    WeightedSquare(k, z1);
    WeightedSquare(j, z2);
    k * (z1 * z1) + j * (z2 * z2)
  }

  /** Every T_k is non-negative. */
  lemma SnhtNonNegative(xs: seq<real>, sd: real)
    requires |xs| >= 2 && sd > 0.0
    ensures forall i :: 0 <= i < |xs| - 1 ==> SnhtT(xs, sd)[i] >= 0.0
  {
  }

  lemma WeightedSquare(w: real, z: real)
    requires w > 0.0
    ensures w * (z * z) >= 0.0
  {
    SquareNonNegative(z);
  }

  /** n a^2 / (k (n - k)) with a = c / sd: the textbook form of T_k, where c
      is the cumulative deviation S_k. */
  function SnhtClosed(n: real, k: real, c: real, sd: real): real
    requires 0.0 < k < n && sd > 0.0
  {
    PositiveProduct(k, n - k);
    n * ((c / sd) * (c / sd)) / (k * (n - k))
  }

  lemma PositiveProduct(a: real, b: real)
    requires a > 0.0 && b > 0.0
    ensures a * b > 0.0
  {
  }

  /** Written as `__snht` computes it, T_k is the textbook statistic
      n (S_k / sd)^2 / (k (n - k)) on the cumulative deviation S_k that the
      Buishand tests use. */
  lemma SnhtClosedForm(xs: seq<real>, sd: real, i: nat)
    requires |xs| >= 2 && sd > 0.0 && i < |xs| - 1
    ensures SnhtT(xs, sd)[i] == SnhtClosed(|xs| as real, (i + 1) as real, CumDev(xs)[i], sd)
  {
    var n, k, j := |xs| as real, (i + 1) as real, (|xs| - (i + 1)) as real;
    var before, after, m := Sum(xs[..i + 1]), Sum(xs[i + 1..]), Mean(xs);
    var c := CumDev(xs)[i];
    CumDevAt(xs, i);
    assert c == before - k * m;
    PrefixSuffixSum(xs, i + 1);
    assert before + after == n * m;
    SnhtAt(xs, sd, i);
    assert SnhtT(xs, sd)[i] == SnhtTerm(before, after, m, k, j, sd);
    TermClosedForm(before, after, m, k, j, sd, c, n);
  }

  lemma SnhtAt(xs: seq<real>, sd: real, i: nat)
    requires |xs| >= 2 && sd > 0.0 && i < |xs| - 1
    ensures SnhtT(xs, sd)[i]
         == SnhtTerm(Sum(xs[..i + 1]), Sum(xs[i + 1..]), Mean(xs), (i + 1) as real, (|xs| - (i + 1)) as real, sd)
  {
  }

  /** T_k from the two sums equals the textbook form whenever the two parts
      add up to n m with n = k + j and c = before - k m. */
  lemma TermClosedForm(before: real, after: real, m: real, k: real, j: real, sd: real, c: real, n: real)
    requires k > 0.0 && j > 0.0 && sd > 0.0
    requires n == k + j && before + after == n * m && c == before - k * m
    ensures SnhtTerm(before, after, m, k, j, sd) == SnhtClosed(n, k, c, sd)
  {
    var t := SnhtTerm(before, after, m, k, j, sd);
    assert after - j * m == -c;
    NegateQuotient(c, sd);
    Closed(k, j, c / sd, t);
    PositiveProduct(k, j);
    DivideOut(t, k * j, n * ((c / sd) * (c / sd)));
  }

  lemma DivideOut(t: real, w: real, v: real)
    requires w > 0.0 && t * w == v
    ensures t == v / w
  {
  }

  lemma NegateQuotient(c: real, sd: real)
    requires sd > 0.0
    ensures -c / sd == -(c / sd)
  {
  }

  lemma WeightedQuotient(w: real, a: real)
    requires w > 0.0
    ensures w * ((a / w) * (a / w)) * w == a * a
  {
    var z := a / w;
    assert z * w == a;
    assert w * (z * z) * w == (z * w) * (z * w);
  }

  lemma Closed(k: real, j: real, a: real, t: real)
    requires k > 0.0 && j > 0.0
    requires t == k * ((a / k) * (a / k)) + j * ((-a / j) * (-a / j))
    ensures t * k * j == (k + j) * (a * a)
  {
    WeightedQuotient(k, a);
    WeightedQuotient(j, -a);
    assert t * k * j == (k * ((a / k) * (a / k)) * k) * j + (j * ((-a / j) * (-a / j)) * j) * k;
  }

  /** `T.max(), T.argmax() + 1`: the largest T_k, never negative, and the
      first k reaching it, which lies in 1..n-1. */
  function Snht(xs: seq<real>, sd: real): (r: Located)
    requires |xs| >= 2 && sd > 0.0
    ensures 1 <= r.loc <= |xs| - 1
    ensures r.stat == SnhtT(xs, sd)[r.loc - 1] && r.stat >= 0.0
    ensures forall k :: 0 <= k < |xs| - 1 ==> SnhtT(xs, sd)[k] <= r.stat
    ensures forall k :: 0 <= k < r.loc - 1 ==> SnhtT(xs, sd)[k] < r.stat
  {
    var t := SnhtT(xs, sd);
    SnhtNonNegative(xs, sd);
    Located(Max(t), ArgMax(t) + 1)
  }
}
