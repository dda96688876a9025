/** Bollinger bands and the oversold trigger of the mean-reversion strategy, over exact reals. */
module Bollinger {
  import opened Options
  import opened Sums
  import Correlation

  datatype Band = Band(mu: real, sigma: real, upper: real, lower: real, z: real)

  /** `closes[-period:]`; Python's `closes[-0:]` is the whole list. */
  function Window(closes: seq<real>, period: nat): (w: seq<real>)
    requires |closes| >= period
    ensures period > 0 ==> |w| == period
    ensures period == 0 ==> w == closes
    ensures |w| > 0 ==> w[|w| - 1] == closes[|closes| - 1]
  {
    if period == 0 then closes else closes[|closes| - period..]
  }

  /** `mean` answers 0 for the empty list. */
  function MeanOrZero(values: seq<real>): real {
    if |values| > 0 then Mean(values) else 0.0
  }

  /** The radicand of `stddev`: the population variance; shorter lists than two have none. */
  function Variance(values: seq<real>): real {
    if |values| < 2 then 0.0 else CoDev(values, values, Mean(values), Mean(values)) / (|values| as real)
  }

  /** `sigma` is what `stddev` returns: 0 for short lists, otherwise the square root of the variance. */
  ghost predicate IsStddev(values: seq<real>, sigma: real) {
    Correlation.IsSqrt(sigma, Variance(values))
  }

  function ComputeBollinger(closes: seq<real>, period: nat, k: real, sigma: real): Option<Band> {
    if |closes| < period then None
    else
      var window := Window(closes, period);
      var mu := MeanOrZero(window);
      if sigma == 0.0 || |closes| == 0 then None
      else Some(Band(mu, sigma, mu + Times(k, sigma), mu - Times(k, sigma), (closes[|closes| - 1] - mu) / sigma))
  }

  /** The two `continue` tests of `scan_universe`, negated: the candidate is kept. */
  predicate Oversold(close: real, b: Band, minZ: real) {
    close < b.lower && b.z <= -minZ
  }

  /** The band over the last `period` closes, over all of them for a period of zero: centred on their mean, k standard
      deviations wide on either side, with the last close's distance from the mean in standard deviations; none for too few
      closes or no spread. */
  lemma BandExactly(closes: seq<real>, period: nat, k: real, sigma: real)
    ensures var b, n := ComputeBollinger(closes, period, k, sigma), |closes|;
            (b.None? <==> n < period || n == 0 || sigma == 0.0)
            && (b.Some? ==>
                  b.value.sigma == sigma && b.value.mu == Mean(if period == 0 then closes else closes[n - period..])
                  && b.value.upper - b.value.mu == Times(k, sigma) == b.value.mu - b.value.lower
                  && Times(sigma, b.value.z) == closes[n - 1] - b.value.mu)
  {
    if |closes| >= period && |closes| > 0 && sigma != 0.0 {
      DivideBack(closes[|closes| - 1] - Mean(if period == 0 then closes else closes[|closes| - period..]), sigma);
    }
  }

  /** Samuelson's inequality: no close is further than sqrt(n - 1) standard deviations from its window's mean. */
  lemma ZScoreBound(closes: seq<real>, period: nat, k: real, sigma: real)
    requires |closes| >= period && IsStddev(Window(closes, period), sigma)
    requires ComputeBollinger(closes, period, k, sigma).Some?
    ensures var n, z := |Window(closes, period)|, ComputeBollinger(closes, period, k, sigma).value.z;
            n >= 2 && Times(z, z) <= (n - 1) as real
  {
    var w := Window(closes, period);
    var n := |w|;
    SquareFacts(sigma);
    assert n >= 2;
    var mu := Mean(w);
    var d := Deviations(w, mu);
    DeviationsCancel(w);
    SquaredSumBound(d[..n - 1]);
    var x, q := d[n - 1], Sum(Squares(d));
    assert Squares(d)[..n - 1] == Squares(d[..n - 1]);
    assert Sum(d[..n - 1]) == -x && Times(-x, -x) == Times(x, x);
    assert Times(x, x) <= Times((n - 1) as real, q - Times(x, x));
    ScaledDeviation(x, q, n as real, sigma);
  }

  lemma ScaledDeviation(x: real, q: real, n: real, sigma: real)
    requires n >= 2.0 && sigma > 0.0 && Times(sigma, sigma) == q / n && Times(x, x) <= Times(n - 1.0, q - Times(x, x))
    ensures Times(x / sigma, x / sigma) <= n - 1.0
  {
    var z, s := x / sigma, Times(sigma, sigma);
    DivideBack(x, sigma);
    TimesPositive(sigma, sigma);
    DivideBack(q, n);
    assert x * x == (z * z) * s by {
      assert x == z * sigma;
      assert (z * sigma) * (z * sigma) == (z * z) * (sigma * sigma);
    }
    var gap := n - 1.0 - z * z;
    assert n * (x * x) <= (n - 1.0) * q;
    assert Times(n * s, gap) == (n - 1.0) * q - n * (x * x) by {
      assert n * s == q;
      assert n * (x * x) == (n * s) * (z * z);
    }
    TimesPositive(n, s);
    PositiveFactor(n * s, gap);
  }

  /** With band width k equal to the z threshold, the two tests together say exactly: close below mu - k * sigma. */
  lemma TriggerIsOneTest(closes: seq<real>, period: nat, k: real, sigma: real, minZ: real)
    requires |closes| >= period && IsStddev(Window(closes, period), sigma)
    requires ComputeBollinger(closes, period, k, sigma).Some?
    ensures var b, close := ComputeBollinger(closes, period, k, sigma).value, closes[|closes| - 1];
            (Oversold(close, b, minZ) <==> close < b.mu - Times(k, sigma) && close <= b.mu - Times(minZ, sigma))
            && (k >= minZ ==> (Oversold(close, b, minZ) <==> close < b.mu - Times(k, sigma)))
            && (k < minZ ==> (Oversold(close, b, minZ) <==> close <= b.mu - Times(minZ, sigma)))
  {
    var b, close := ComputeBollinger(closes, period, k, sigma).value, closes[|closes| - 1];
    SquareFacts(sigma);
    ZThreshold(close - b.mu, sigma, minZ);
    WidthOrder(k, minZ, sigma);
  }

  lemma ZThreshold(x: real, sigma: real, minZ: real)
    requires sigma > 0.0
    ensures x / sigma <= -minZ <==> x <= -Times(minZ, sigma)
  {
    DivideBack(x, sigma);
    var gap := -minZ - x / sigma;
    assert Times(sigma, gap) == -Times(minZ, sigma) - x;
    if gap >= 0.0 {
      if gap > 0.0 { TimesPositive(sigma, gap); }
    } else {
      TimesPositive(sigma, -gap);
      assert Times(sigma, -gap) == -Times(sigma, gap);
    }
  }

  lemma WidthOrder(k: real, m: real, sigma: real)
    requires sigma > 0.0
    ensures k >= m ==> Times(k, sigma) >= Times(m, sigma)
    ensures k < m ==> Times(k, sigma) < Times(m, sigma)
  {
    assert Times(k, sigma) - Times(m, sigma) == (k - m) * sigma;
    if k > m {
      TimesPositive(k - m, sigma);
    } else if k < m {
      TimesPositive(m - k, sigma);
    }
  }

  /** A consequence for the rules file: a threshold of sqrt(n - 1) or more standard deviations never fires. */
  lemma WideThresholdNeverFires(closes: seq<real>, period: nat, k: real, sigma: real, minZ: real)
    requires |closes| >= period && IsStddev(Window(closes, period), sigma)
    requires ComputeBollinger(closes, period, k, sigma).Some?
    requires k >= 0.0 && Times(k, k) >= (|Window(closes, period)| - 1) as real
    ensures !Oversold(closes[|closes| - 1], ComputeBollinger(closes, period, k, sigma).value, minZ)
  {
    var b, close := ComputeBollinger(closes, period, k, sigma).value, closes[|closes| - 1];
    ZScoreBound(closes, period, k, sigma);
    SquareFacts(sigma);
    if close < b.lower {
      var z := b.z;
      DivideBack(close - b.mu, sigma);
      assert Times(sigma, z) == close - b.mu;
      var gap := -z - k;
      assert Times(sigma, gap) == -(close - b.mu) - Times(k, sigma) > 0.0;
      PositiveFactor(sigma, gap);
      assert gap != 0.0;
      FurtherOut(z, k);
    }
  }

  lemma FurtherOut(z: real, k: real)
    requires k >= 0.0 && z < -k
    ensures Times(z, z) > Times(k, k)
  {
    var gap := -z - k;
    TimesPositive(gap, gap);
    assert z * z == k * k + 2.0 * (k * gap) + gap * gap;
  }

  /** n - 1 closes at zero and a last close at -n: the window that is as oversold as a window can be. */
  function DeepestWindow(n: nat): (w: seq<real>)
    requires n >= 2
    ensures |w| == n
  {
    seq(n - 1, i => 0.0) + [-(n as real)]
  }

  lemma DeepestWindowMoments(n: nat)
    requires n >= 2
    ensures Mean(DeepestWindow(n)) == -1.0 && Variance(DeepestWindow(n)) == (n - 1) as real
  {
    var w, m := DeepestWindow(n), n as real;
    var zeros, ones := seq(n - 1, i => 0.0), seq(n - 1, i => 1.0);
    assert w[..n - 1] == zeros;
    SumConstant(zeros, 0.0);
    CancelFactor(m, -1.0);
    assert Sum(w) == -m == Times(m, -1.0);
    var d := Deviations(w, -1.0);
    assert Squares(d)[..n - 1] == ones;
    SumConstant(ones, 1.0);
    LastTerm(m);
    CancelFactor(m, m - 1.0);
  }

  lemma LastTerm(m: real)
    ensures Times(m - 1.0, 1.0) + Times(1.0 - m, 1.0 - m) == Times(m, m - 1.0)
  {
  }

  /** The bound is attained: below it, a firing window exists. */
  lemma NarrowThresholdFires(n: nat, k: real, minZ: real, root: real)
    requires n >= 2 && Correlation.IsSqrt(root, (n - 1) as real) && k < root && minZ <= root
    ensures var w := DeepestWindow(n);
            IsStddev(Window(w, n), root)
            && ComputeBollinger(w, n, k, root).Some?
            && Oversold(w[n - 1], ComputeBollinger(w, n, k, root).value, minZ)
  {
    var w := DeepestWindow(n);
    assert Window(w, n) == w;
    DeepestWindowMoments(n);
    SquareFacts(root);
    TriggerIsOneTest(w, n, k, root, minZ);
    WidthOrder(k, root, root);
    WidthOrder(minZ, root, root);
  }
}
