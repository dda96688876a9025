/** Exact real arithmetic and sums over series of reals, shared by all the modules that compute with amounts.
    Each generator expression `sum(... for ...)` of the program is the `Sum` of a sequence comprehension. */
module Sums {

  /** Plain multiplication, under a name that facts about whole series of products can be stated with. */
  function Times(x: real, y: real): real { x * y }

  function Abs(x: real): real { if x < 0.0 then -x else x }

  function Sum(s: seq<real>): real {
    if |s| == 0 then 0.0 else Sum(s[..|s| - 1]) + s[|s| - 1]
  }

  function Mean(s: seq<real>): real
    requires |s| > 0
  {
    Sum(s) / (|s| as real)
  }

  /** s[i] - m for every i. */
  function Deviations(s: seq<real>, m: real): (d: seq<real>)
    ensures |d| == |s| && forall i :: 0 <= i < |s| ==> d[i] == s[i] - m
  {
    seq(|s|, i requires 0 <= i < |s| => s[i] - m)
  }

  /** x[i] * y[i] for every i. */
  function Products(x: seq<real>, y: seq<real>): (p: seq<real>)
    requires |x| == |y|
    ensures |p| == |x| && forall i :: 0 <= i < |x| ==> p[i] == Times(x[i], y[i])
  {
    seq(|x|, i requires 0 <= i < |x| => Times(x[i], y[i]))
  }

  function Squares(x: seq<real>): seq<real> { Products(x, x) }

  /** The sum of (xs[i] - mx) * (ys[i] - my); an unnormalised variance when both series are the same. */
  function CoDev(xs: seq<real>, ys: seq<real>, mx: real, my: real): real
    requires |xs| == |ys|
  {
    Sum(Products(Deviations(xs, mx), Deviations(ys, my)))
  }

  /** Sums are linear: the one induction every identity below rests on. */
  lemma {:induction false} SumLinear(u: seq<real>, s: seq<real>, t: seq<real>, c: real)
    requires |u| == |s| == |t|
    requires forall i :: 0 <= i < |u| ==> u[i] == s[i] + Times(c, t[i])
    ensures Sum(u) == Sum(s) + Times(c, Sum(t))
  {
    var n := |u|;
    if n > 0 {
      var u', s', t' := u[..n - 1], s[..n - 1], t[..n - 1];
      SumLinear(u', s', t', c);
      Distribute(c, Sum(t'), t[n - 1]);
    }
  }

  lemma Distribute(c: real, x: real, y: real)
    ensures Times(c, x + y) == Times(c, x) + Times(c, y)
  {
  }

  /** A sum of non-negative terms is non-negative, and zero only when every term is. */
  lemma {:induction false} SumNonNegative(s: seq<real>)
    requires forall i :: 0 <= i < |s| ==> s[i] >= 0.0
    ensures Sum(s) >= 0.0
    ensures Sum(s) == 0.0 <==> forall i :: 0 <= i < |s| ==> s[i] == 0.0
  {
    var n := |s|;
    if n > 0 {
      var front := s[..n - 1];
      SumNonNegative(front);
      assert forall i :: 0 <= i < n - 1 ==> s[i] == front[i];
      assert Sum(s) == Sum(front) + s[n - 1];
    }
  }

  lemma {:induction false} SumConstant(s: seq<real>, c: real)
    requires forall i :: 0 <= i < |s| ==> s[i] == c
    ensures Sum(s) == Times(|s| as real, c)
  {
    if |s| > 0 {
      SumConstant(s[..|s| - 1], c);
      assert |s| as real == (|s| - 1) as real + 1.0;
    }
  }

  lemma OneMoreTime(n: nat, m: real)
    ensures if n == 0 then Times(n as real, m) == 0.0 else Times(n as real, m) == Times((n - 1) as real, m) + m
  {
  }

  /** Deviations from any m sum to the series' sum less n * m. */
  lemma {:induction false} DeviationSum(s: seq<real>, m: real)
    ensures Sum(Deviations(s, m)) == Sum(s) - Times(|s| as real, m)
  {
    hide Times;
    var n := |s|;
    OneMoreTime(n, m);
    if n > 0 {
      DeviationSum(s[..n - 1], m);
      assert Deviations(s, m)[..n - 1] == Deviations(s[..n - 1], m);
    }
  }

  /** Deviations from the mean cancel. */
  lemma DeviationsCancel(s: seq<real>)
    requires |s| > 0
    ensures Sum(Deviations(s, Mean(s))) == 0.0
  {
    DeviationSum(s, Mean(s));
    DivideBack(Sum(s), |s| as real);
  }

  lemma DivideBack(x: real, y: real)
    requires y != 0.0
    ensures Times(y, x / y) == x
  {
  }

  lemma CancelFactor(n: real, x: real)
    requires n != 0.0
    ensures Times(n, x) / n == x
  {
  }

  lemma SquareFacts(x: real)
    ensures Times(x, x) >= 0.0
    ensures Times(x, x) == 0.0 <==> x == 0.0
  {
    if x > 0.0 {
      TimesPositive(x, x);
    } else if x < 0.0 {
      TimesPositive(-x, -x);
      assert Times(-x, -x) == Times(x, x);
    }
  }

  lemma TimesPositive(x: real, y: real)
    requires x > 0.0 && y > 0.0
    ensures Times(x, y) > 0.0
  {
  }

  /** A sum of squares is non-negative, and zero exactly for the zero series. */
  lemma SumOfSquares(d: seq<real>)
    ensures Sum(Squares(d)) >= 0.0
    ensures Sum(Squares(d)) == 0.0 <==> forall i :: 0 <= i < |d| ==> d[i] == 0.0
  {
    forall i | 0 <= i < |d|
      ensures Squares(d)[i] >= 0.0 && (Squares(d)[i] == 0.0 <==> d[i] == 0.0)
    {
      SquareFacts(d[i]);
    }
    SumNonNegative(Squares(d));
    if forall i :: 0 <= i < |d| ==> d[i] == 0.0 {
      assert forall i :: 0 <= i < |d| ==> Squares(d)[i] == 0.0;
    }
  }

  /** Zero variance about m means the series is constantly m. */
  lemma VarianceZeroIffConstant(s: seq<real>, m: real)
    ensures CoDev(s, s, m, m) >= 0.0
    ensures CoDev(s, s, m, m) == 0.0 <==> forall i :: 0 <= i < |s| ==> s[i] == m
  {
    SumOfSquares(Deviations(s, m));
  }

  lemma CoDevSymmetric(xs: seq<real>, ys: seq<real>, mx: real, my: real)
    requires |xs| == |ys|
    ensures CoDev(xs, ys, mx, my) == CoDev(ys, xs, my, mx)
  {
    assert Products(Deviations(xs, mx), Deviations(ys, my)) == Products(Deviations(ys, my), Deviations(xs, mx));
  }

  /** Cauchy-Schwarz against the all-ones series: (sum of d)^2 <= n * (sum of d^2). */
  lemma {:induction false} SquaredSumBound(d: seq<real>)
    ensures Times(Sum(d), Sum(d)) <= Times(|d| as real, Sum(Squares(d)))
  {
    var n := |d|;
    if n > 0 {
      var front, x := d[..n - 1], d[n - 1];
      SquaredSumBound(front);
      assert Squares(d)[..n - 1] == Squares(front);
      SquaredSumStep(Sum(front), Sum(Squares(front)), (n - 1) as real, x);
      assert n as real == (n - 1) as real + 1.0;
    }
  }

  lemma SquaredSumStep(t: real, q: real, k: real, x: real)
    requires k >= 0.0 && Times(t, t) <= Times(k, q) && (k == 0.0 ==> t == 0.0 && q == 0.0)
    ensures Times(t + x, t + x) <= Times(k + 1.0, q + Times(x, x))
  {
    if k > 0.0 {
      var gap, slack, w := Times(k + 1.0, q + Times(x, x)) - Times(t + x, t + x), Times(k, q) - Times(t, t), t - Times(k, x);
      ScaledGap(t, q, k, x);
      SquareFacts(w);
      assert Times(k + 1.0, slack) >= 0.0;
      PositiveFactor(k, gap);
    }
  }

  lemma ScaledGap(t: real, q: real, k: real, x: real)
    ensures Times(k, Times(k + 1.0, q + Times(x, x)) - Times(t + x, t + x))
         == Times(k + 1.0, Times(k, q) - Times(t, t)) + Times(t - Times(k, x), t - Times(k, x))
  {
  }

  lemma PositiveFactor(k: real, g: real)
    requires k > 0.0 && Times(k, g) >= 0.0
    ensures g >= 0.0
  {
  }
}
