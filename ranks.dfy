/** Mid-ranks (ties share the average of their ranks) and the pairwise sign
    sums behind the Pettitt statistic. */
module Ranks {
  import opened Series

  /** Rank of v among xs with ties averaged (`scipy.stats.rankdata`, method
      'average'): the entries below v, plus the mean of the positions that the
      ties with v occupy. */
  function MidRank(xs: seq<real>, v: real): real
  {
    CountLess(xs, v) as real + (CountEqual(xs, v) + 1) as real / 2.0
  }

  /** `rankdata(x)`: the mid-rank of every observation, in order. */
  function MidRanks(xs: seq<real>): (r: seq<real>)
    ensures |r| == |xs|
  {
    seq(|xs|, i requires 0 <= i < |xs| => MidRank(xs, xs[i]))
  }

  /** Every mid-rank lies between 1 and n. */
  lemma MidRankBounds(xs: seq<real>, i: nat)
    requires i < |xs|
    ensures 1.0 <= MidRanks(xs)[i] <= |xs| as real
  {
    CountEqualMember(xs, i);
    CountsPartition(xs, xs[i]);
  }

  /** Ranks follow the order of the observations: smaller values get strictly
      smaller ranks, equal values equal ranks. */
  lemma MidRankOrder(xs: seq<real>, i: nat, j: nat)
    requires i < |xs| && j < |xs|
    ensures xs[i] < xs[j] ==> MidRanks(xs)[i] < MidRanks(xs)[j]
    ensures xs[i] == xs[j] ==> MidRanks(xs)[i] == MidRanks(xs)[j]
  {
    if xs[i] < xs[j] {
      CountLessAbove(xs, xs[i], xs[j]);
      CountEqualMember(xs, i);
      CountEqualMember(xs, j);
    }
  }

  /** Everything below or equal to a is below any b > a. */
  lemma {:induction false} CountLessAbove(s: seq<real>, a: real, b: real)
    requires a < b
    ensures CountLess(s, b) >= CountLess(s, a) + CountEqual(s, a)
  {
    if |s| > 0 {
      CountLessAbove(s[..|s| - 1], a, b);
    }
  }

  /** The sign of a difference. */
  function Sign(d: real): int
  {
    if d > 0.0 then 1 else if d < 0.0 then -1 else 0
  }

  /** sum over x in s of sgn(v - x). */
  function SignSum(s: seq<real>, v: real): int
  {
    if |s| == 0 then 0 else SignSum(s[..|s| - 1], v) + Sign(v - s[|s| - 1])
  }

  /** sum over b in before, a in after of sgn(b - a): Pettitt's U for the
      split of a series into `before` and `after`. */
  function PairSigns(before: seq<real>, after: seq<real>): int
  {
    if |before| == 0 then 0
    else PairSigns(before[..|before| - 1], after) + SignSum(after, before[|before| - 1])
  }

  /** A sign sum counts the entries below v minus those above it. */
  lemma {:induction false} SignSumCounts(s: seq<real>, v: real)
    ensures SignSum(s, v) == CountLess(s, v) - CountGreater(s, v)
  {
    if |s| > 0 {
      SignSumCounts(s[..|s| - 1], v);
    }
  }

  lemma {:induction false} SignSumConcat(a: seq<real>, b: seq<real>, v: real)
    ensures SignSum(a + b, v) == SignSum(a, v) + SignSum(b, v)
  {
    if |b| == 0 {
      assert a + b == a;
    } else {
      assert (a + b)[..|a + b| - 1] == a + b[..|b| - 1];
      SignSumConcat(a, b[..|b| - 1], v);
    }
  }

  lemma {:induction false} PairSignsSplitAfter(before: seq<real>, a: seq<real>, b: seq<real>)
    ensures PairSigns(before, a + b) == PairSigns(before, a) + PairSigns(before, b)
  {
    if |before| > 0 {
      PairSignsSplitAfter(before[..|before| - 1], a, b);
      SignSumConcat(a, b, before[|before| - 1]);
    }
  }

  lemma {:induction false} PairSignsEmptyAfter(before: seq<real>)
    ensures PairSigns(before, []) == 0
  {
    if |before| > 0 {
      PairSignsEmptyAfter(before[..|before| - 1]);
    }
  }

  /** Comparing every x against a single y is the negated sign sum of y. */
  lemma {:induction false} PairSignsSingle(xs: seq<real>, y: real)
    ensures PairSigns(xs, [y]) == -SignSum(xs, y)
  {
    if |xs| > 0 {
      var x := xs[|xs| - 1];
      PairSignsSingle(xs[..|xs| - 1], y);
      assert [y][..0] == [];
      assert SignSum([y], x) == Sign(x - y);
      assert Sign(x - y) == -Sign(y - x);
    }
  }

  /** sgn(b - a) = -sgn(a - b): the pairwise sums cancel across the two orders. */
  lemma {:induction false} PairSignsAntisymmetric(xs: seq<real>, ys: seq<real>)
    ensures PairSigns(xs, ys) + PairSigns(ys, xs) == 0
  {
    if |ys| == 0 {
      PairSignsEmptyAfter(xs);
    } else {
      var ys', y := ys[..|ys| - 1], ys[|ys| - 1];
      assert ys == ys' + [y];
      PairSignsAntisymmetric(xs, ys');
      PairSignsSplitAfter(xs, ys', [y]);
      PairSignsSingle(xs, y);
    }
  }

  /** Centred twice-rank is an integer sign sum: 2 r(v) - (n + 1) = #below - #above. */
  lemma CentredRank(xs: seq<real>, v: real)
    ensures 2.0 * MidRank(xs, v) - (|xs| + 1) as real == SignSum(xs, v) as real
  {
    CountsPartition(xs, v);
    SignSumCounts(xs, v);
  }

  /** Twice the sum of the first k mid-ranks, centred by k (n + 1), compares
      the first k observations against all n of them. */
  lemma {:induction false} RankPrefixSigns(xs: seq<real>, k: nat)
    requires k <= |xs|
    ensures 2.0 * Sum(MidRanks(xs)[..k]) - (k * (|xs| + 1)) as real == PairSigns(xs[..k], xs) as real
  {
    if k > 0 {
      var n := |xs|;
      RankPrefixSigns(xs, k - 1);
      assert MidRanks(xs)[..k][..k - 1] == MidRanks(xs)[..k - 1];
      assert Sum(MidRanks(xs)[..k]) == Sum(MidRanks(xs)[..k - 1]) + MidRank(xs, xs[k - 1]);
      assert xs[..k][..k - 1] == xs[..k - 1];
      assert PairSigns(xs[..k], xs) == PairSigns(xs[..k - 1], xs) + SignSum(xs, xs[k - 1]);
      CentredRank(xs, xs[k - 1]);
      MulSucc(k - 1, n + 1);
    }
  }

  lemma MulSucc(k: nat, m: nat)
    ensures ((k + 1) * m) as real == (k * m) as real + m as real
  {
  }

  /** The mid-ranks of n observations always add up to n (n + 1) / 2, as the
      ranks 1..n do, whatever the ties. */
  lemma RankSum(xs: seq<real>)
    ensures 2.0 * Sum(MidRanks(xs)) == (|xs| * (|xs| + 1)) as real
  {
    RankPrefixSigns(xs, |xs|);
    assert xs[..|xs|] == xs;
    assert MidRanks(xs)[..|xs|] == MidRanks(xs);
    PairSignsAntisymmetric(xs, xs);
  }

  /** Two series with the same pattern of order and ties. */
  predicate SameOrder(xs: seq<real>, ys: seq<real>)
  {
    |xs| == |ys| &&
    forall i, j :: 0 <= i < |xs| && 0 <= j < |xs| ==>
      (xs[i] < xs[j] <==> ys[i] < ys[j]) && (xs[i] == xs[j] <==> ys[i] == ys[j])
  }

  /** Ranks see only the order of the observations. */
  lemma SameOrderSameRanks(xs: seq<real>, ys: seq<real>)
    requires SameOrder(xs, ys)
    ensures MidRanks(xs) == MidRanks(ys)
  {
    forall i | 0 <= i < |xs|
      ensures MidRanks(xs)[i] == MidRanks(ys)[i]
    {
      SameOrderCounts(xs, ys, i, |xs|);
      assert xs[..|xs|] == xs && ys[..|ys|] == ys;
    }
  }

  lemma {:induction false} SameOrderCounts(xs: seq<real>, ys: seq<real>, i: nat, m: nat)
    requires SameOrder(xs, ys) && i < |xs| && m <= |xs|
    ensures CountLess(xs[..m], xs[i]) == CountLess(ys[..m], ys[i])
    ensures CountEqual(xs[..m], xs[i]) == CountEqual(ys[..m], ys[i])
  {
    if m > 0 {
      SameOrderCounts(xs, ys, i, m - 1);
      assert xs[..m][..m - 1] == xs[..m - 1];
      assert ys[..m][..m - 1] == ys[..m - 1];
    }
  }
}
