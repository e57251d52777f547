/** The one-pass accumulator of libs/common/statistic.h over real numbers.

    The accumulator keeps a mean, a count and the running sum of squared deviations, and forgets the
    values themselves. A ghost field remembers them here, and the class invariant says what the two numbers
    are in terms of them: n times the mean is the sum, and nvariance is the sum of the squared deviations
    from that mean, exactly. Both are sums over the multiset of values, so the order of the values cannot
    matter. Rounding, which the one-pass formula is chosen for, is not modelled; neither is the add-on
    that tracks minimum and maximum. */
module Statistics {
  import opened Wrappers
  import Ordering

  function Total(xs: seq<real>, f: real -> real): real {
    if xs == [] then 0.0 else Total(xs[..|xs| - 1], f) + f(xs[|xs| - 1])
  }

  const Itself: real -> real := (x: real) => x

  function Sum(xs: seq<real>): real {
    Total(xs, Itself)
  }

  function SquareFrom(m: real): real -> real {
    (x: real) => (x - m) * (x - m)
  }

  /** Sum of the squared deviations from m. */
  function Deviations(xs: seq<real>, m: real): real {
    Total(xs, SquareFrom(m))
  }

  // ----- order does not matter -----

  lemma {:induction false} TotalSplit(xs: seq<real>, k: nat, f: real -> real)
    requires k <= |xs|
    ensures Total(xs, f) == Total(xs[..k], f) + Total(xs[k..], f)
  {
    if k == |xs| {
      assert xs[..k] == xs && xs[k..] == [];
    } else {
      var n := |xs| - 1;
      TotalSplit(xs[..n], k, f);
      assert xs[..n][..k] == xs[..k] && xs[..n][k..] == xs[k..][..n - k] && xs[k..][n - k] == xs[n];
    }
  }

  lemma {:induction false} TotalWithout(xs: seq<real>, k: nat, f: real -> real)
    requires k < |xs|
    ensures Total(xs, f) == Total(xs[..k] + xs[k + 1..], f) + f(xs[k])
  {
    var rest := xs[..k] + xs[k + 1..];
    TotalSplit(xs, k + 1, f);
    TotalSplit(rest, k, f);
    assert xs[..k + 1][..k] == xs[..k] && rest[..k] == xs[..k] && rest[k..] == xs[k + 1..];
  }

  lemma {:induction false} TotalPermuted(xs: seq<real>, ys: seq<real>, f: real -> real)
    requires multiset(xs) == multiset(ys)
    ensures Total(xs, f) == Total(ys, f)
    decreases |xs|
  {
    Ordering.SameLength(xs, ys);
    if xs != [] {
      var n := |xs| - 1;
      assert xs[n] in multiset(ys);
      var k: nat :| k < |ys| && ys[k] == xs[n];
      Ordering.Removed(xs, n);
      Ordering.Removed(ys, k);
      assert xs[..n] + xs[n + 1..] == xs[..n];
      TotalPermuted(xs[..n], ys[..k] + ys[k + 1..], f);
      TotalWithout(ys, k, f);
    }
  }

  /** Sums and squared deviations are those of the multiset. */
  lemma {:induction false} SumsPermuted(xs: seq<real>, ys: seq<real>, m: real)
    requires multiset(xs) == multiset(ys)
    ensures Sum(xs) == Sum(ys) && Deviations(xs, m) == Deviations(ys, m)
  {
    TotalPermuted(xs, ys, Itself);
    TotalPermuted(xs, ys, SquareFrom(m));
  }

  // ----- deviations from another point -----

  lemma {:induction false} AddLast(xs: seq<real>, x: real, m: real, e: real)
    requires e == x - m
    ensures Sum(xs + [x]) == Sum(xs) + x && Deviations(xs + [x], m) == Deviations(xs, m) + e * e
  {
    assert (xs + [x])[..|xs|] == xs;
  }

  function Shifted(deviations: real, s: real, n: real, m: real, d: real): real {
    deviations - 2.0 * d * (s - n * m) + n * (d * d)
  }

  lemma {:induction false} DeviationsShiftOne(xs: seq<real>, x: real, m: real, d: real, n: real)
    requires Deviations(xs, m + d) == Shifted(Deviations(xs, m), Sum(xs), n, m, d)
    ensures Deviations(xs + [x], m + d) == Shifted(Deviations(xs + [x], m), Sum(xs + [x]), n + 1.0, m, d)
  {
    AddLast(xs, x, m, x - m);
    AddLast(xs, x, m + d, x - (m + d));
  }

  lemma {:induction false} DeviationsShift(xs: seq<real>, m: real, d: real, n: real)
    requires n == |xs| as real
    ensures Deviations(xs, m + d) == Shifted(Deviations(xs, m), Sum(xs), n, m, d)
  {
    if xs != [] {
      var k := |xs| - 1;
      DeviationsShift(xs[..k], m, d, n - 1.0);
      DeviationsShiftOne(xs[..k], xs[k], m, d, n - 1.0);
      assert xs == xs[..k] + [xs[k]];
    }
  }

  // ----- the accumulator -----

  /** Of n values, mean is sum / n, and nvariance the sum of the squared deviations from it. */
  ghost predicate Summarizes(mean: real, nvariance: real, n: real, xs: seq<real>) {
    n == |xs| as real && n * mean == Sum(xs) && nvariance == Deviations(xs, mean)
  }

  lemma {:induction false} ShiftAtMean(mean: real, nvariance: real, k: real, xs: seq<real>, d: real)
    requires Summarizes(mean, nvariance, k, xs)
    ensures Deviations(xs, mean + d) == nvariance + k * (d * d)
  {
    DeviationsShift(xs, mean, d, k);
  }

  lemma {:induction false} StepDeviations(shifted: real, nvariance: real, k: real, xs: seq<real>, value: real, m: real,
                                          delta: real, n: real, d: real)
    requires shifted == Deviations(xs, m) && shifted == nvariance + k * (d * d)
    requires delta - d == value - m && n == k + 1.0 && n > 0.0 && n * d == delta
    ensures Deviations(xs + [value], m) == nvariance + delta * delta * (n - 1.0) / n
  {
    AddLast(xs, value, m, delta - d);
  }

  lemma {:induction false} StepVariance(mean: real, nvariance: real, k: real, xs: seq<real>, value: real, delta: real,
                                        n: real, d: real)
    requires Summarizes(mean, nvariance, k, xs) && delta == value - mean && n == k + 1.0 && n * d == delta
    ensures Deviations(xs + [value], mean + d) == nvariance + delta * delta * (n - 1.0) / n
  {
    ShiftAtMean(mean, nvariance, k, xs, d);
    StepDeviations(Deviations(xs, mean + d), nvariance, k, xs, value, mean + d, delta, n, d);
  }

  lemma {:induction false} StepSummarizes(mean: real, nvariance: real, k: real, xs: seq<real>, value: real, delta: real, n: real)
    requires Summarizes(mean, nvariance, k, xs) && delta == value - mean && n == k + 1.0
    ensures Summarizes(mean + delta / n, nvariance + delta * delta * (n - 1.0) / n, n, xs + [value])
  {
    assert n * (delta / n) == delta;
    StepVariance(mean, nvariance, k, xs, value, delta, n, delta / n);
  }

  class StatisticalBase {
    var mean: real
    var nvariance: real
    var count: nat
    ghost var values: seq<real>

    ghost predicate Valid()
      reads this
    {
      && count == |values| && Summarizes(mean, nvariance, count as real, values)
      && (count == 0 ==> mean == 0.0)
    }

    constructor ()
      ensures Valid() && values == []
    {
      mean, nvariance, count, values := 0.0, 0.0, 0, [];
    }

    /** operator(): one pass, no list of values kept. */
    method Add(value: real)
      requires Valid()
      modifies this
      ensures Valid() && values == old(values) + [value]
    {
      ghost var k := count as real;
      count := count + 1;
      var delta, n := value - mean, count as real;
      StepSummarizes(mean, nvariance, k, values, value, delta, n);
      mean := mean + delta / n;
      nvariance := nvariance + delta * delta * (n - 1.0) / n;
      values := values + [value];
    }

    /** The mean squared deviation from the mean; 0 / 0 before the first value. */
    function Variance(): (r: Option<real>)
      requires Valid()
      reads this
      ensures r.None? <==> values == []
      ensures r.Some? ==>
                && r.value * |values| as real == Deviations(values, mean)
                && mean * |values| as real == Sum(values)
    {
      if count == 0 then None else Some(nvariance / count as real)
    }
  }

  /** Two accumulators fed the same values in any two orders agree in every field. */
  lemma {:induction false} OrderIrrelevant(a: StatisticalBase, b: StatisticalBase)
    requires a.Valid() && b.Valid() && multiset(a.values) == multiset(b.values)
    ensures a.count == b.count && a.mean == b.mean && a.nvariance == b.nvariance && a.Variance() == b.Variance()
  {
    Ordering.SameLength(a.values, b.values);
    SumsPermuted(a.values, b.values, a.mean);
  }
}
