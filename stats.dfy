/**
 * The statistics both scripts compute over the collected latencies: minimum,
 * maximum and mean, and the sigma-coverage percentages with their displayed ranges.
 * The standard deviation and the percentiles come from numpy and are given as
 * functions the caller supplies.
 */
module Stats {

  /** numpy's `std` and `percentile`, which the model does not define. */
  datatype Numpy = Numpy(std: seq<real> -> real, percentile: (seq<real>, nat) -> real)

  function Sum(xs: seq<real>): real
  {
    if xs == [] then 0.0 else xs[0] + Sum(xs[1..])
  }

  /** `np.mean`: the arithmetic mean, computed exactly: n copies of it add up to the sum. */
  function Mean(xs: seq<real>): (m: real)
    requires |xs| > 0
    ensures m * (|xs| as real) == Sum(xs)
  {
    QuotientTimes(Sum(xs), |xs| as real);
    Sum(xs) / (|xs| as real)
  }

  /** `np.min`: a sample no larger than any other. */
  function Min(xs: seq<real>): (m: real)
    requires |xs| > 0
    ensures m in xs
    ensures forall i :: 0 <= i < |xs| ==> m <= xs[i]
  {
    if |xs| == 1 then xs[0]
    else
      var m := Min(xs[1..]);
      if xs[0] <= m then xs[0] else m
  }

  /** `np.max`: a sample no smaller than any other. */
  function Max(xs: seq<real>): (m: real)
    requires |xs| > 0
    ensures m in xs
    ensures forall i :: 0 <= i < |xs| ==> xs[i] <= m
  {
    if |xs| == 1 then xs[0]
    else
      var m := Max(xs[1..]);
      if xs[0] >= m then xs[0] else m
  }

  /** When every sample lies in [lo, hi], the sum lies in [n * lo, n * hi]. */
  lemma {:induction false} SumBounds(xs: seq<real>, lo: real, hi: real)
    requires forall i :: 0 <= i < |xs| ==> lo <= xs[i] <= hi
    ensures |xs| as real * lo <= Sum(xs) <= |xs| as real * hi
  {
    if xs != [] {
      SumBounds(xs[1..], lo, hi);
      assert (|xs| as real) * lo == lo + (|xs| - 1) as real * lo;
      assert (|xs| as real) * hi == hi + (|xs| - 1) as real * hi;
    }
  }

  lemma QuotientTimes(s: real, n: real)
    requires n > 0.0
    ensures (s / n) * n == s
  {
  }

  lemma QuotientBetween(s: real, n: real, lo: real, hi: real)
    requires n > 0.0 && n * lo <= s <= n * hi
    ensures lo <= s / n <= hi
  {
    assert (s / n) * n == s;
  }

  lemma QuotientMonotone(a: real, b: real, n: real)
    requires n > 0.0 && a <= b
    ensures a / n <= b / n
  {
    assert (a / n) * n == a && (b / n) * n == b;
  }

  /** When every sample lies in [lo, hi], so does the mean. */
  lemma MeanBetween(xs: seq<real>, lo: real, hi: real)
    requires |xs| > 0
    requires forall i :: 0 <= i < |xs| ==> lo <= xs[i] <= hi
    ensures lo <= Mean(xs) <= hi
  {
    SumBounds(xs, lo, hi);
    QuotientBetween(Sum(xs), |xs| as real, lo, hi);
  }

  /** The mean lies between the minimum and the maximum. */
  lemma MeanBetweenMinMax(xs: seq<real>)
    requires |xs| > 0
    ensures Min(xs) <= Mean(xs) <= Max(xs)
  {
    MeanBetween(xs, Min(xs), Max(xs));
  }

  // ---------------------------------------------------------------------------
  // Sigma coverage
  // ---------------------------------------------------------------------------

  predicate Within(x: real, lo: real, hi: real) { lo <= x <= hi }

  /** `np.sum((xs >= lo) & (xs <= hi))`: how many samples lie in the closed interval. */
  function CountWithin(xs: seq<real>, lo: real, hi: real): (c: nat)
    ensures c <= |xs|
  {
    if xs == [] then 0
    else (if Within(xs[0], lo, hi) then 1 else 0) + CountWithin(xs[1..], lo, hi)
  }

  /** All samples are counted exactly when all lie in the interval. */
  lemma {:induction false} CountWithinAll(xs: seq<real>, lo: real, hi: real)
    ensures CountWithin(xs, lo, hi) == |xs| <==> forall i :: 0 <= i < |xs| ==> Within(xs[i], lo, hi)
  {
    if xs != [] {
      CountWithinAll(xs[1..], lo, hi);
      assert forall i :: 1 <= i < |xs| ==> xs[i] == xs[1..][i - 1];
    }
  }

  /** A wider interval counts at least as many samples. */
  lemma {:induction false} CountWithinWider(xs: seq<real>, lo: real, hi: real, lo': real, hi': real)
    requires lo' <= lo && hi <= hi'
    ensures CountWithin(xs, lo, hi) <= CountWithin(xs, lo', hi')
  {
    if xs != [] { CountWithinWider(xs[1..], lo, hi, lo', hi'); }
  }

  /** Raising a negative lower bound to zero counts the same non-negative samples. */
  lemma {:induction false} CountWithinClamped(xs: seq<real>, lo: real, hi: real)
    requires forall i :: 0 <= i < |xs| ==> xs[i] >= 0.0
    ensures CountWithin(xs, if lo < 0.0 then 0.0 else lo, hi) == CountWithin(xs, lo, hi)
  {
    if xs != [] { CountWithinClamped(xs[1..], lo, hi); }
  }

  function SigmaLow(avg: real, std: real, k: nat): real { avg - k as real * std }

  function SigmaHigh(avg: real, std: real, k: nat): real { avg + k as real * std }

  /**
   * `within_k_sigma`: the percentage of samples in [avg - k*std, avg + k*std],
   * i.e. the count divided by the number of samples, times 100.
   */
  function Coverage(xs: seq<real>, avg: real, std: real, k: nat): (pct: real)
    requires |xs| > 0
    ensures 0.0 <= pct <= 100.0
  {
    var c := CountWithin(xs, SigmaLow(avg, std, k), SigmaHigh(avg, std, k));
    assert c as real / |xs| as real <= 1.0;
    c as real / |xs| as real * 100.0
  }

  /** Coverage is 100 exactly when every sample lies inside the closed interval. */
  lemma CoverageFull(xs: seq<real>, avg: real, std: real, k: nat)
    requires |xs| > 0
    ensures Coverage(xs, avg, std, k) == 100.0
        <==> forall i :: 0 <= i < |xs| ==> Within(xs[i], SigmaLow(avg, std, k), SigmaHigh(avg, std, k))
  {
    var lo, hi := SigmaLow(avg, std, k), SigmaHigh(avg, std, k);
    var c, n := CountWithin(xs, lo, hi), |xs| as real;
    CountWithinAll(xs, lo, hi);
    assert c as real / n * 100.0 == 100.0 <==> c as real == n;
  }

  /** For a non-negative deviation the intervals nest, so coverage grows with k. */
  lemma CoverageNests(xs: seq<real>, avg: real, std: real, j: nat, k: nat)
    requires |xs| > 0 && std >= 0.0 && j <= k
    ensures Coverage(xs, avg, std, j) <= Coverage(xs, avg, std, k)
  {
    assert j as real * std <= k as real * std;
    CountWithinWider(xs, SigmaLow(avg, std, j), SigmaHigh(avg, std, j), SigmaLow(avg, std, k), SigmaHigh(avg, std, k));
    var cj := CountWithin(xs, SigmaLow(avg, std, j), SigmaHigh(avg, std, j));
    var ck := CountWithin(xs, SigmaLow(avg, std, k), SigmaHigh(avg, std, k));
    QuotientMonotone(cj as real, ck as real, |xs| as real);
  }

  /** With a non-negative deviation the 1-, 2- and 3-sigma coverages are ordered. */
  lemma SigmaCoveragesOrdered(xs: seq<real>, avg: real, std: real)
    requires |xs| > 0
    ensures std >= 0.0 ==>
      Coverage(xs, avg, std, 1) <= Coverage(xs, avg, std, 2) <= Coverage(xs, avg, std, 3)
  {
    if std >= 0.0 {
      CoverageNests(xs, avg, std, 1, 2);
      CoverageNests(xs, avg, std, 2, 3);
    }
  }

  /** `max(0, avg - k*std)`: the printed lower end of the k-sigma range. */
  function DisplayLow(avg: real, std: real, k: nat): (lo: real)
    ensures lo >= 0.0 && lo >= SigmaLow(avg, std, k)
    ensures lo == 0.0 || lo == SigmaLow(avg, std, k)
    ensures SigmaLow(avg, std, k) < 0.0 ==> lo == 0.0
    ensures SigmaLow(avg, std, k) >= 0.0 ==> lo == SigmaLow(avg, std, k)
  {
    if 0.0 >= SigmaLow(avg, std, k) then 0.0 else SigmaLow(avg, std, k)
  }

  /**
   * The clamp is for display only: since latencies are never negative, counting
   * against the clamped lower bound would give the same coverage.
   */
  lemma ClampKeepsCoverage(xs: seq<real>, avg: real, std: real, k: nat)
    requires forall i :: 0 <= i < |xs| ==> xs[i] >= 0.0
    ensures CountWithin(xs, DisplayLow(avg, std, k), SigmaHigh(avg, std, k))
         == CountWithin(xs, SigmaLow(avg, std, k), SigmaHigh(avg, std, k))
  {
    CountWithinClamped(xs, SigmaLow(avg, std, k), SigmaHigh(avg, std, k));
  }

  /**
   * For n copies of one latency v: minimum, maximum and mean are v, and with a
   * zero deviation every k-sigma interval covers all samples.
   */
  lemma ConstantSamples(xs: seq<real>, v: real, k: nat)
    requires |xs| > 0 && forall i :: 0 <= i < |xs| ==> xs[i] == v
    ensures Min(xs) == v && Max(xs) == v && Mean(xs) == v
    ensures Coverage(xs, v, 0.0, k) == 100.0
  {
    MeanBetweenMinMax(xs);
    CoverageFull(xs, v, 0.0, k);
  }
}
