/** The Monte Carlo p-value (`__mc_p_value`) and the decision `h` taken in
    `__test`. The simulated statistics, one per random normal series, are
    given as a sequence: the random generator is not part of this model. */
module Significance {
  import opened Series

  /** `(res[:,0] > stat).sum() / sim`: the share of simulated statistics
      strictly above the observed one. It is a probability, zero exactly
      when no simulation exceeds the observation and one exactly when all
      do. */
  function PValue(sims: seq<real>, stat: real): (p: real)
    requires |sims| > 0
    ensures |sims| as real * p == CountGreater(sims, stat) as real
    ensures 0.0 <= p <= 1.0
    ensures p == 0.0 <==> forall j :: 0 <= j < |sims| ==> sims[j] <= stat
    ensures p == 1.0 <==> forall j :: 0 <= j < |sims| ==> sims[j] > stat
  {
    Fraction(CountGreater(sims, stat), |sims|);
    CountGreater(sims, stat) as real / |sims| as real
  }

  lemma Fraction(c: nat, s: nat)
    requires 0 < s && c <= s
    ensures s as real * (c as real / s as real) == c as real
    ensures 0.0 <= c as real / s as real <= 1.0
    ensures c as real / s as real == 0.0 <==> c == 0
    ensures c as real / s as real == 1.0 <==> c == s
  {
    var q := c as real / s as real;
    assert q * s as real == c as real;
  }

  /** Counting splits over batches of simulations. */
  lemma {:induction false} CountGreaterConcat(a: seq<real>, b: seq<real>, v: real)
    ensures CountGreater(a + b, v) == CountGreater(a, v) + CountGreater(b, v)
  {
    if |b| == 0 {
      assert a + b == a;
    } else {
      assert (a + b)[..|a + b| - 1] == a + b[..|b| - 1];
      CountGreaterConcat(a, b[..|b| - 1], v);
    }
  }

  /** A simulated statistic equal to the observed one does not count: adding
      it only enlarges the denominator. */
  lemma TiesDoNotCount(a: seq<real>, b: seq<real>, stat: real)
    ensures CountGreater(a + [stat] + b, stat) == CountGreater(a + b, stat)
  {
    CountGreaterConcat(a + [stat], b, stat);
    CountGreaterConcat(a, [stat], stat);
    CountGreaterConcat(a, b, stat);
  }

  /** A larger observed statistic is never less significant. */
  lemma {:induction false} CountGreaterAntitone(sims: seq<real>, lo: real, hi: real)
    requires lo <= hi
    ensures CountGreater(sims, hi) <= CountGreater(sims, lo)
  {
    if |sims| > 0 {
      CountGreaterAntitone(sims[..|sims| - 1], lo, hi);
    }
  }

  lemma PValueAntitone(sims: seq<real>, lo: real, hi: real)
    requires |sims| > 0 && lo <= hi
    ensures PValue(sims, hi) <= PValue(sims, lo)
  {
    CountGreaterAntitone(sims, lo, hi);
    FractionMonotone(CountGreater(sims, hi), CountGreater(sims, lo), |sims|);
  }

  lemma FractionMonotone(a: nat, b: nat, s: nat)
    requires 0 < s && a <= b
    ensures a as real / s as real <= b as real / s as real
  {
  }

  /** `h = alpha > p` with simulations: at level alpha the test rejects
      homogeneity exactly when fewer than alpha * sim simulated statistics
      exceed the observed one. */
  lemma RejectByCount(sims: seq<real>, stat: real, alpha: real, p: real)
    requires |sims| > 0 && p == PValue(sims, stat)
    ensures alpha > p <==> (CountGreater(sims, stat) as real) < alpha * |sims| as real
  {
    QuotientBelow(p, CountGreater(sims, stat) as real, |sims| as real, alpha);
  }

  lemma QuotientBelow(q: real, c: real, s: real, alpha: real)
    requires s > 0.0 && s * q == c
    ensures alpha > q <==> c < alpha * s
  {
    if q < alpha {
      assert q * s < alpha * s;
    } else {
      assert q * s >= alpha * s;
    }
  }
}
