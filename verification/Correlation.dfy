/** Pearson correlation as computed by `_pearson`, over exact reals. */
module Correlation {
  import opened Options
  import opened Sums
  import Regression

  /** `math.sqrt`, characterised: the non-negative number whose square is x. */
  ghost predicate IsSqrt(root: real, x: real) {
    root >= 0.0 && Times(root, root) == x
  }

  /** x * y of the two unnormalised variances, the radicand of the program's denominator. */
  function Radicand(xs: seq<real>, ys: seq<real>): real
    requires |xs| == |ys| && |xs| > 0
  {
    Times(CoDev(xs, xs, Mean(xs), Mean(xs)), CoDev(ys, ys, Mean(ys), Mean(ys)))
  }

  /** `root` stands for the value of the square-root call. */
  ghost predicate RootOk(xs: seq<real>, ys: seq<real>, root: real) {
    |xs| == |ys| >= 2 ==> IsSqrt(root, Radicand(xs, ys))
  }

  function Pearson(xs: seq<real>, ys: seq<real>, root: real): Option<real> {
    if |xs| != |ys| || |xs| < 2 then None
    else
      var num := CoDev(xs, ys, Mean(xs), Mean(ys));
      if root == 0.0 then None else Some(num / root)
  }

  /** Cauchy-Schwarz, read off the cost of the best-fitting line: it is never negative. */
  lemma CovarianceBound(xs: seq<real>, ys: seq<real>, mx: real, my: real)
    requires |xs| == |ys| && CoDev(xs, xs, mx, mx) != 0.0
    ensures var c, vx, vy := CoDev(xs, ys, mx, my), CoDev(xs, xs, mx, mx), CoDev(ys, ys, my, my);
            var l := Regression.Line(c / vx, my - Times(c / vx, mx));
            vx > 0.0 && Times(c, c) == Times(vx, vy) - Times(vx, Regression.Ssr(xs, ys, l))
            && Times(c, c) <= Times(vx, vy)
  {
    var c, vx, vy := CoDev(xs, ys, mx, my), CoDev(xs, xs, mx, mx), CoDev(ys, ys, my, my);
    VarianceZeroIffConstant(xs, mx);
    var s := c / vx;
    var l := Regression.Line(s, my - Times(s, mx));
    Regression.CentroidLineCost(xs, ys, s, mx, my);
    Regression.SsrZeroIffOnLine(xs, ys, l);
    BestCost(c, vx, vy, Regression.Ssr(xs, ys, l));
  }

  lemma BestCost(c: real, vx: real, vy: real, cost: real)
    requires vx > 0.0 && cost >= 0.0
    requires var s := c / vx; cost == vy + Times(-2.0 * s, c) + Times(s * s, vx)
    ensures Times(c, c) == Times(vx, vy) - Times(vx, cost)
    ensures Times(vx, cost) >= 0.0 && (Times(vx, cost) == 0.0 <==> cost == 0.0)
  {
    var s := c / vx;
    DivideBack(c, vx);
    assert s * vx == c;
    assert vx * cost == vx * vy - 2.0 * ((s * vx) * c) + (s * vx) * (s * vx);
    if cost > 0.0 {
      TimesPositive(vx, cost);
    }
  }

  /** The radicand vanishes exactly when one of the series is constant. */
  lemma RootZero(xs: seq<real>, ys: seq<real>, root: real)
    requires |xs| == |ys| >= 2 && RootOk(xs, ys, root)
    ensures root == 0.0 <==> CoDev(xs, xs, Mean(xs), Mean(xs)) == 0.0 || CoDev(ys, ys, Mean(ys), Mean(ys)) == 0.0
  {
    VarianceZeroIffConstant(xs, Mean(xs));
    VarianceZeroIffConstant(ys, Mean(ys));
    var vx, vy := CoDev(xs, xs, Mean(xs), Mean(xs)), CoDev(ys, ys, Mean(ys), Mean(ys));
    SquareFacts(root);
    if vx > 0.0 && vy > 0.0 {
      TimesPositive(vx, vy);
    }
  }

  /** A correlation is refused exactly for short or unpaired input and for a constant series. */
  lemma RefusedExactlyWhenDegenerate(xs: seq<real>, ys: seq<real>, root: real)
    requires RootOk(xs, ys, root)
    ensures Pearson(xs, ys, root).None? <==>
            |xs| != |ys| || |xs| < 2
            || (forall i, j :: 0 <= i < j < |xs| ==> xs[i] == xs[j])
            || (forall i, j :: 0 <= i < j < |ys| ==> ys[i] == ys[j])
  {
    if |xs| == |ys| >= 2 {
      RootZero(xs, ys, root);
      ConstantIffNoVariance(xs);
      ConstantIffNoVariance(ys);
    }
  }

  lemma ConstantIffNoVariance(s: seq<real>)
    requires |s| > 0
    ensures CoDev(s, s, Mean(s), Mean(s)) == 0.0 <==> forall i, j :: 0 <= i < j < |s| ==> s[i] == s[j]
  {
    VarianceZeroIffConstant(s, Mean(s));
    if CoDev(s, s, Mean(s), Mean(s)) != 0.0 {
      Regression.DistinctAbscissae(s);
    }
  }

  /** -1 <= r <= 1 for every pair of series, so the stored confidence abs(r) lies in [0, 1];
      and r is an extreme exactly when all points lie on the regression line. */
  lemma CorrelationBound(xs: seq<real>, ys: seq<real>, root: real)
    requires RootOk(xs, ys, root) && Pearson(xs, ys, root).Some?
    ensures var r := Pearson(xs, ys, root).value;
            -1.0 <= r <= 1.0
            && Regression.RegressionScore(xs, ys).Some?
            && (r == 1.0 || r == -1.0 <==>
                forall i :: 0 <= i < |xs| ==>
                  Regression.Residual(xs[i], ys[i], Regression.RegressionScore(xs, ys).value) == 0.0)
  {
    RootZero(xs, ys, root);
    var mx, my := Mean(xs), Mean(ys);
    var c, vx, vy := CoDev(xs, ys, mx, my), CoDev(xs, xs, mx, mx), CoDev(ys, ys, my, my);
    CovarianceBound(xs, ys, mx, my);
    var l := Regression.RegressionScore(xs, ys).value;
    Regression.SsrZeroIffOnLine(xs, ys, l);
    var cost := Regression.Ssr(xs, ys, l);
    if cost > 0.0 {
      TimesPositive(vx, cost);
    }
    assert Times(vx, cost) == 0.0 <==> cost == 0.0;
    RatioBound(c, root);
  }

  lemma RatioBound(c: real, root: real)
    requires root > 0.0 && Times(c, c) <= Times(root, root)
    ensures -1.0 <= c / root <= 1.0
    ensures c / root == 1.0 || c / root == -1.0 <==> Times(c, c) == Times(root, root)
  {
    DivideBack(c, root);
    var r := c / root;
    assert Times(c, c) == Times(Times(r, r), Times(root, root)) by {
      assert c == r * root;
      assert (r * root) * (r * root) == (r * r) * (root * root);
    }
    TimesPositive(root, root);
    SquareBelowOne(r, Times(root, root));
  }

  lemma SquareBelowOne(r: real, q: real)
    requires q > 0.0 && Times(Times(r, r), q) <= q
    ensures -1.0 <= r <= 1.0
    ensures r == 1.0 || r == -1.0 <==> Times(Times(r, r), q) == q
  {
    var gap := 1.0 - r * r;
    assert q * gap == q - Times(Times(r, r), q);
    PositiveFactor(q, gap);
    assert gap == (1.0 - r) * (1.0 + r);
    if r > 1.0 {
      TimesPositive(r - 1.0, 1.0 + r);
    } else if r < -1.0 {
      TimesPositive(1.0 - r, -1.0 - r);
    } else if -1.0 < r < 1.0 {
      TimesPositive(1.0 - r, 1.0 + r);
      TimesPositive(q, gap);
    }
  }

  lemma QuotientSign(c: real, d: real)
    requires d > 0.0
    ensures (c / d > 0.0 <==> c > 0.0) && (c / d < 0.0 <==> c < 0.0)
  {
    DivideBack(c, d);
    var q := c / d;
    if q > 0.0 {
      TimesPositive(d, q);
    } else if q < 0.0 {
      TimesPositive(d, -q);
      assert Times(d, -q) == -Times(d, q);
    }
  }

  /** r rises and falls with the regression line: it has the sign of its slope. */
  lemma CorrelationHasSlopeSign(xs: seq<real>, ys: seq<real>, root: real)
    requires RootOk(xs, ys, root) && Pearson(xs, ys, root).Some?
    ensures var r := Pearson(xs, ys, root).value;
            Regression.RegressionScore(xs, ys).Some?
            && var slope := Regression.RegressionScore(xs, ys).value.slope;
               (r > 0.0 <==> slope > 0.0) && (r < 0.0 <==> slope < 0.0)
  {
    RootZero(xs, ys, root);
    VarianceZeroIffConstant(xs, Mean(xs));
    QuotientSign(CoDev(xs, ys, Mean(xs), Mean(ys)), root);
    QuotientSign(CoDev(xs, ys, Mean(xs), Mean(ys)), CoDev(xs, xs, Mean(xs), Mean(xs)));
  }

  /** The square of r is the share of the second series' variation that its regression line explains. */
  lemma ExplainedShare(xs: seq<real>, ys: seq<real>, root: real)
    requires RootOk(xs, ys, root) && Pearson(xs, ys, root).Some?
    ensures var r := Pearson(xs, ys, root).value;
            Regression.RegressionScore(xs, ys).Some?
            && Regression.Ssr(xs, ys, Regression.RegressionScore(xs, ys).value)
               == Times(1.0 - Times(r, r), CoDev(ys, ys, Mean(ys), Mean(ys)))
  {
    RootZero(xs, ys, root);
    var mx, my := Mean(xs), Mean(ys);
    CovarianceBound(xs, ys, mx, my);
    UnexplainedPart(CoDev(xs, ys, mx, my), CoDev(xs, xs, mx, mx), CoDev(ys, ys, my, my), root,
                    Regression.Ssr(xs, ys, Regression.RegressionScore(xs, ys).value));
  }

  lemma UnexplainedPart(c: real, vx: real, vy: real, root: real, cost: real)
    requires vx > 0.0 && root != 0.0 && Times(root, root) == Times(vx, vy) && Times(c, c) == Times(vx, vy) - Times(vx, cost)
    ensures var r := c / root; cost == Times(1.0 - Times(r, r), vy)
  {
    var r := c / root;
    DivideBack(c, root);
    assert Times(c, c) == Times(Times(r, r), Times(vx, vy)) by {
      assert c == root * r;
      assert (root * r) * (root * r) == (r * r) * (root * root);
    }
    var gap := cost - Times(1.0 - Times(r, r), vy);
    assert Times(vx, gap) == 0.0 by {
      assert vx * ((1.0 - r * r) * vy) == vx * vy - (r * r) * (vx * vy);
      assert Times(vx, gap) == Times(vx, cost) - vx * ((1.0 - r * r) * vy);
    }
    ZeroProduct(vx, gap);
  }

  lemma ZeroProduct(v: real, x: real)
    requires v > 0.0 && Times(v, x) == 0.0
    ensures x == 0.0
  {
  }

  /** All points lie on one line that rises, or falls. */
  ghost predicate OnALine(xs: seq<real>, ys: seq<real>, rising: bool)
    requires |xs| == |ys|
  {
    exists l: Regression.Line :: (if rising then l.slope > 0.0 else l.slope < 0.0) && OnLine(xs, ys, l)
  }

  ghost predicate OnLine(xs: seq<real>, ys: seq<real>, l: Regression.Line)
    requires |xs| == |ys|
  {
    forall i :: 0 <= i < |xs| ==> Regression.Residual(xs[i], ys[i], l) == 0.0
  }

  lemma OnlyFittedLine(xs: seq<real>, ys: seq<real>, l: Regression.Line)
    requires |xs| == |ys| && Regression.RegressionScore(xs, ys).Some? && OnLine(xs, ys, l)
    ensures l == Regression.RegressionScore(xs, ys).value
  {
    hide Regression.RegressionScore;
    hide Regression.Ssr;
    Regression.FitIsUniqueMinimiser(xs, ys);
    var fit := Regression.RegressionScore(xs, ys).value;
    Regression.SsrZeroIffOnLine(xs, ys, l);
    Regression.SsrZeroIffOnLine(xs, ys, fit);
    assert Regression.Ssr(xs, ys, fit) <= Regression.Ssr(xs, ys, l);
  }

  /** r is 1 exactly when all points lie on one rising line, and -1 exactly when they lie on one falling line. */
  lemma ExtremesAreLines(xs: seq<real>, ys: seq<real>, root: real)
    requires RootOk(xs, ys, root) && Pearson(xs, ys, root).Some?
    ensures var r := Pearson(xs, ys, root).value;
            (r == 1.0 <==> OnALine(xs, ys, true)) && (r == -1.0 <==> OnALine(xs, ys, false))
  {
    assert |xs| == |ys|;
    hide Regression.RegressionScore;
    hide Pearson;
    CorrelationBound(xs, ys, root);
    CorrelationHasSlopeSign(xs, ys, root);
    var r, fit := Pearson(xs, ys, root).value, Regression.RegressionScore(xs, ys).value;
    if r == 1.0 || r == -1.0 {
      assert OnLine(xs, ys, fit);
    }
    forall l: Regression.Line | OnLine(xs, ys, l) ensures l == fit {
      OnlyFittedLine(xs, ys, l);
    }
  }

  /** Swapping the two series changes nothing. */
  lemma CorrelationSymmetric(xs: seq<real>, ys: seq<real>, root: real)
    ensures Pearson(xs, ys, root) == Pearson(ys, xs, root)
    ensures RootOk(xs, ys, root) <==> RootOk(ys, xs, root)
  {
    if |xs| == |ys| >= 2 {
      CoDevSymmetric(xs, ys, Mean(xs), Mean(ys));
    }
  }

  /** c * x[i] + d for every i: a change of unit and origin. */
  function Rescale(xs: seq<real>, c: real, d: real): (s: seq<real>)
    ensures |s| == |xs| && forall i :: 0 <= i < |xs| ==> s[i] == Times(c, xs[i]) + d
  {
    seq(|xs|, i requires 0 <= i < |xs| => Times(c, xs[i]) + d)
  }

  lemma RescaledMean(xs: seq<real>, c: real, d: real)
    requires |xs| > 0
    ensures Mean(Rescale(xs, c, d)) == Times(c, Mean(xs)) + d
  {
    hide Times;
    hide Sum;
    var ds := seq(|xs|, i => d);
    SumLinear(Rescale(xs, c, d), ds, xs, c);
    SumConstant(ds, d);
    RescaledQuotient(|xs| as real, Sum(xs), c, d);
  }

  lemma RescaledQuotient(n: real, sum: real, c: real, d: real)
    requires n > 0.0
    ensures (Times(n, d) + Times(c, sum)) / n == Times(c, sum / n) + d
  {
  }

  lemma RescaledCoDev(xs: seq<real>, ys: seq<real>, c: real, d: real, mx: real, my: real)
    requires |xs| == |ys|
    ensures CoDev(Rescale(xs, c, d), ys, Times(c, mx) + d, my) == Times(c, CoDev(xs, ys, mx, my))
  {
    var p, p' := Products(Deviations(xs, mx), Deviations(ys, my)),
                 Products(Deviations(Rescale(xs, c, d), Times(c, mx) + d), Deviations(ys, my));
    var zeros := seq(|xs|, i => 0.0);
    forall i | 0 <= i < |xs|
      ensures p'[i] == zeros[i] + Times(c, p[i])
    {
      RescaledTerm(xs[i], ys[i], c, d, mx, my);
    }
    SumLinear(p', zeros, p, c);
    SumConstant(zeros, 0.0);
  }

  lemma RescaledTerm(x: real, y: real, c: real, d: real, mx: real, my: real)
    ensures Times(Times(c, x) + d - (Times(c, mx) + d), y - my) == Times(c, Times(x - mx, y - my))
  {
    assert c * x - c * mx == c * (x - mx);
    var u, v := x - mx, y - my;
    assert (c * u) * v == c * (u * v);
  }

  /** The root computed for a rescaled series is |c| times the root for the original. */
  lemma RescaledRoot(v: real, w: real, c: real, root: real, root': real)
    requires IsSqrt(root, Times(v, w)) && IsSqrt(root', Times(Times(c, Times(c, v)), w))
    ensures root' == if c >= 0.0 then Times(c, root) else -Times(c, root)
  {
    var k := if c >= 0.0 then c else -c;
    var t := Times(k, root);
    assert Times(t, t) == Times(root', root') by {
      assert (k * root) * (k * root) == (k * k) * (root * root);
      assert k * k == c * c;
      assert (c * (c * v)) * w == (c * c) * (v * w);
    }
    assert t >= 0.0;
    SameSquareSameRoot(t, root');
  }

  lemma SameSquareSameRoot(x: real, y: real)
    requires x >= 0.0 && y >= 0.0 && Times(x, x) == Times(y, y)
    ensures x == y
  {
    assert (x - y) * (x + y) == x * x - y * y;
    if x > y {
      TimesPositive(x - y, x + y);
    } else if x < y {
      TimesPositive(y - x, x + y);
    }
  }

  /** Changing one series' unit and origin leaves the correlation alone, up to the sign of the factor. */
  lemma CorrelationScaleFree(xs: seq<real>, ys: seq<real>, c: real, d: real, root: real, root': real)
    requires c != 0.0 && RootOk(xs, ys, root) && RootOk(Rescale(xs, c, d), ys, root')
    ensures Pearson(xs, ys, root).None? <==> Pearson(Rescale(xs, c, d), ys, root').None?
    ensures Pearson(xs, ys, root).Some? ==>
              var r, r' := Pearson(xs, ys, root).value, Pearson(Rescale(xs, c, d), ys, root').value;
              r' == if c > 0.0 then r else -r
  {
    if |xs| == |ys| >= 2 {
      var zs, mx, my := Rescale(xs, c, d), Mean(xs), Mean(ys);
      RescaledMean(xs, c, d);
      var mz := Mean(zs);
      RescaledCoDev(xs, ys, c, d, mx, my);
      RescaledCoDev(xs, zs, c, d, mx, mz);
      CoDevSymmetric(xs, zs, mx, mz);
      RescaledCoDev(xs, xs, c, d, mx, mx);
      CoDevSymmetric(zs, xs, mz, mx);
      RescaledRoot(CoDev(xs, xs, mx, mx), CoDev(ys, ys, my, my), c, root, root');
      SignedRatio(CoDev(xs, ys, mx, my), root, c);
    }
  }

  lemma SignedRatio(num: real, root: real, c: real)
    requires c != 0.0
    ensures Times(c, root) == 0.0 <==> root == 0.0
    ensures root != 0.0 ==> Times(c, num) / Times(c, root) == num / root
    ensures root != 0.0 ==> Times(c, num) / -Times(c, root) == -(num / root)
  {
    if root != 0.0 {
      DivideBack(num, root);
      var r := num / root;
      assert Times(c, root) != 0.0;
      assert c * num == r * (c * root);
    }
  }
}
