/** Arithmetic on finite series that every statistic shares: sums, means,
    cumulative deviations from the mean, counting, and numpy's first arg-max. */
module Series {

  /** Sum of a series, peeled from the right (numpy's `sum`). */
  function Sum(s: seq<real>): real
  {
    if |s| == 0 then 0.0 else Sum(s[..|s| - 1]) + s[|s| - 1]
  }

  lemma {:induction false} SumConcat(a: seq<real>, b: seq<real>)
    ensures Sum(a + b) == Sum(a) + Sum(b)
  {
    if |b| == 0 {
      assert a + b == a;
    } else {
      assert (a + b)[..|a + b| - 1] == a + b[..|b| - 1];
      SumConcat(a, b[..|b| - 1]);
    }
  }

  /** The prefix sums split the whole sum: sum(x[:k]) + sum(x[k:]) == sum(x). */
  lemma PrefixSuffixSum(s: seq<real>, k: nat)
    requires k <= |s|
    ensures Sum(s[..k]) + Sum(s[k..]) == Sum(s)
  {
    assert s[..k] + s[k..] == s;
    SumConcat(s[..k], s[k..]);
  }

  /** A series of n copies of c sums to n * c. */
  lemma {:induction false} SumConstant(s: seq<real>, c: real)
    requires forall i :: 0 <= i < |s| ==> s[i] == c
    ensures Sum(s) == |s| as real * c
  {
    if |s| > 0 {
      SumConstant(s[..|s| - 1], c);
    }
  }

  /** Arithmetic mean (numpy's `mean`); undefined on an empty series. */
  function Mean(s: seq<real>): (m: real)
    requires |s| > 0
    ensures |s| as real * m == Sum(s)
  {
    Sum(s) / |s| as real
  }

  /** The mean of a constant series is that constant. */
  lemma MeanConstant(s: seq<real>, c: real)
    requires |s| > 0
    requires forall i :: 0 <= i < |s| ==> s[i] == c
    ensures Mean(s) == c
  {
    SumConstant(s, c);
  }

  /** Sum of squared distances from a centre c. */
  function SumSqFrom(s: seq<real>, c: real): (r: real)
    ensures r >= 0.0
  {
    if |s| == 0 then 0.0
    else
      var d := s[|s| - 1] - c;
      SquareNonNegative(d);
      SumSqFrom(s[..|s| - 1], c) + d * d
  }

  /** Sum of squared deviations from the mean: the numerator of both the
      population (divisor n) and the sample (divisor n - 1) variance. */
  function SumSqDev(s: seq<real>): (r: real)
    requires |s| > 0
    ensures r >= 0.0
  {
    SumSqFrom(s, Mean(s))
  }

  lemma {:induction false} SumSqFromConstant(s: seq<real>, c: real)
    requires forall i :: 0 <= i < |s| ==> s[i] == c
    ensures SumSqFrom(s, c) == 0.0
  {
    if |s| > 0 {
      SumSqFromConstant(s[..|s| - 1], c);
    }
  }

  predicate IsConstant(s: seq<real>)
  {
    forall i :: 0 <= i < |s| ==> s[i] == s[0]
  }

  /** A constant series has no spread: every squared deviation vanishes. */
  lemma ConstantHasNoSpread(s: seq<real>)
    requires |s| > 0 && IsConstant(s)
    ensures SumSqDev(s) == 0.0
  {
    MeanConstant(s, s[0]);
    SumSqFromConstant(s, s[0]);
  }

  lemma SquareNonNegative(d: real)
    ensures d * d >= 0.0
  {
  }

  /** S_k = sum(x[:k]) - k * mean(x) for k = 1..n (`x.cumsum() - k * x.mean()`);
      entry k - 1 holds S_k, and the last one, S_n, is exactly zero. */
  function CumDev(xs: seq<real>): (d: seq<real>)
    requires |xs| > 0
    ensures |d| == |xs|
    ensures d[|xs| - 1] == 0.0
  {
    assert xs[..|xs|] == xs;
    seq(|xs|, i requires 0 <= i < |xs| => Sum(xs[..i + 1]) - (i + 1) as real * Mean(xs))
  }

  /** Element-wise absolute value (`abs(S)`). */
  function Abs(s: seq<real>): (a: seq<real>)
    ensures |a| == |s|
    ensures forall i :: 0 <= i < |s| ==> a[i] >= 0.0 && (a[i] == s[i] || a[i] == -s[i])
  {
    seq(|s|, i requires 0 <= i < |s| => if s[i] < 0.0 then -s[i] else s[i])
  }

  /** Element-wise division by a non-zero scale (`S / x.std()`). */
  function Scaled(s: seq<real>, sd: real): (a: seq<real>)
    requires sd != 0.0
    ensures |a| == |s|
    ensures forall i :: 0 <= i < |s| ==> a[i] == s[i] / sd
  {
    seq(|s|, i requires 0 <= i < |s| => s[i] / sd)
  }

  /** numpy's `argmax`: the FIRST index holding the largest value. */
  function ArgMax(s: seq<real>): (i: nat)
    requires |s| > 0
    ensures i < |s|
    ensures forall j :: 0 <= j < |s| ==> s[j] <= s[i]
    ensures forall j :: 0 <= j < i ==> s[j] < s[i]
  {
    if |s| == 1 then 0
    else
      var i := ArgMax(s[..|s| - 1]);
      if s[i] < s[|s| - 1] then |s| - 1 else i
  }

  /** numpy's `argmin`: the first index holding the smallest value. */
  function ArgMin(s: seq<real>): (i: nat)
    requires |s| > 0
    ensures i < |s|
    ensures forall j :: 0 <= j < |s| ==> s[i] <= s[j]
    ensures forall j :: 0 <= j < i ==> s[i] < s[j]
  {
    if |s| == 1 then 0
    else
      var i := ArgMin(s[..|s| - 1]);
      if s[|s| - 1] < s[i] then |s| - 1 else i
  }

  /** numpy's `max`: a value of s that no entry exceeds. */
  function Max(s: seq<real>): (m: real)
    requires |s| > 0
    ensures m in s
    ensures forall j :: 0 <= j < |s| ==> s[j] <= m
  {
    s[ArgMax(s)]
  }

  /** numpy's `min`: a value of s that no entry undercuts. */
  function Min(s: seq<real>): (m: real)
    requires |s| > 0
    ensures m in s
    ensures forall j :: 0 <= j < |s| ==> m <= s[j]
  {
    s[ArgMin(s)]
  }

  /** A value that occurs in s and bounds it from above is its maximum. */
  lemma MaxIs(s: seq<real>, j: nat)
    requires j < |s|
    requires forall i :: 0 <= i < |s| ==> s[i] <= s[j]
    ensures Max(s) == s[j]
  {
  }

  /** A value that occurs in s and bounds it from below is its minimum. */
  lemma MinIs(s: seq<real>, j: nat)
    requires j < |s|
    requires forall i :: 0 <= i < |s| ==> s[j] <= s[i]
    ensures Min(s) == s[j]
  {
  }

  /** Number of entries strictly below, equal to and strictly above v. */
  function CountLess(s: seq<real>, v: real): (c: nat)
    ensures c <= |s|
  {
    if |s| == 0 then 0
    else CountLess(s[..|s| - 1], v) + (if s[|s| - 1] < v then 1 else 0)
  }

  function CountEqual(s: seq<real>, v: real): (c: nat)
    ensures c <= |s|
  {
    if |s| == 0 then 0
    else CountEqual(s[..|s| - 1], v) + (if s[|s| - 1] == v then 1 else 0)
  }

  /** Number of entries strictly greater than v. It is zero exactly when no
      entry exceeds v, and |s| exactly when every entry does. */
  function CountGreater(s: seq<real>, v: real): (c: nat)
    ensures c <= |s|
    ensures c == 0 <==> forall j :: 0 <= j < |s| ==> s[j] <= v
    ensures c == |s| <==> forall j :: 0 <= j < |s| ==> s[j] > v
  {
    if |s| == 0 then 0
    else CountGreater(s[..|s| - 1], v) + (if s[|s| - 1] > v then 1 else 0)
  }

  /** Every entry is below, equal to or above v, and exactly one of them. */
  lemma {:induction false} CountsPartition(s: seq<real>, v: real)
    ensures CountLess(s, v) + CountEqual(s, v) + CountGreater(s, v) == |s|
  {
    if |s| > 0 {
      CountsPartition(s[..|s| - 1], v);
    }
  }

  /** An entry equal to v is counted by CountEqual. */
  lemma {:induction false} CountEqualMember(s: seq<real>, i: nat)
    requires i < |s|
    ensures CountEqual(s, s[i]) >= 1
  {
    if i < |s| - 1 {
      CountEqualMember(s[..|s| - 1], i);
    }
  }
}
