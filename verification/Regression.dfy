/** Ordinary least squares as computed by `regression_score`, over exact reals. */
module Regression {
  import opened Options
  import opened Sums

  datatype Line = Line(slope: real, intercept: real)

  /** The closed form of the program: slope = cov / var, intercept = mean(b) - slope * mean(a). */
  function RegressionScore(a: seq<real>, b: seq<real>): Option<Line> {
    var n := |a|;
    if n < 2 || |b| != n then None
    else
      var meanA, meanB := Mean(a), Mean(b);
      var varA := CoDev(a, a, meanA, meanA);
      if varA == 0.0 then None
      else
        var slope := CoDev(a, b, meanA, meanB) / varA;
        Some(Line(slope, meanB - Times(slope, meanA)))
  }

  function Residual(x: real, y: real, l: Line): real {
    y - Times(l.slope, x) - l.intercept
  }

  function Residuals(a: seq<real>, b: seq<real>, l: Line): (r: seq<real>)
    requires |a| == |b|
    ensures |r| == |a| && forall i :: 0 <= i < |a| ==> r[i] == Residual(a[i], b[i], l)
  {
    seq(|a|, i requires 0 <= i < |a| => Residual(a[i], b[i], l))
  }

  /** Residual sum of squares of a candidate line: the quantity least squares minimises. */
  function Ssr(a: seq<real>, b: seq<real>, l: Line): real
    requires |a| == |b|
  {
    Sum(Squares(Residuals(a, b, l)))
  }

  /** The line is a least-squares solution and no other line does as well. */
  ghost predicate UniqueMinimiser(a: seq<real>, b: seq<real>, l: Line)
    requires |a| == |b|
  {
    forall other: Line :: Ssr(a, b, l) <= Ssr(a, b, other) && (Ssr(a, b, other) == Ssr(a, b, l) ==> other == l)
  }

  /** d * a[i] + e for every i: how far two candidate lines are apart. */
  function Gaps(a: seq<real>, d: real, e: real): (g: seq<real>)
    ensures |g| == |a| && forall i :: 0 <= i < |a| ==> g[i] == Times(d, a[i]) + e
  {
    seq(|a|, i requires 0 <= i < |a| => Times(d, a[i]) + e)
  }

  /** Residual sums of a line through (ma, mb), in terms of the centred series. */
  lemma CentredLineSums(a: seq<real>, b: seq<real>, l: Line, ma: real, mb: real)
    requires |a| == |b| && l.intercept == mb - Times(l.slope, ma)
    ensures Sum(Residuals(a, b, l)) == Sum(Deviations(b, mb)) + Times(-l.slope, Sum(Deviations(a, ma)))
    ensures Sum(Products(Residuals(a, b, l), Deviations(a, ma)))
         == CoDev(a, b, ma, mb) + Times(-l.slope, CoDev(a, a, ma, ma))
  {
    var r, da, db := Residuals(a, b, l), Deviations(a, ma), Deviations(b, mb);
    forall i | 0 <= i < |a|
      ensures r[i] == db[i] + Times(-l.slope, da[i])
      ensures Products(r, da)[i] == Products(da, db)[i] + Times(-l.slope, Squares(da)[i])
    {
      CentredResidual(a[i], b[i], l, ma, mb);
    }
    SumLinear(r, db, da, -l.slope);
    SumLinear(Products(r, da), Products(da, db), Squares(da), -l.slope);
  }

  lemma CentredResidual(x: real, y: real, l: Line, ma: real, mb: real)
    requires l.intercept == mb - Times(l.slope, ma)
    ensures Residual(x, y, l) == (y - mb) + Times(-l.slope, x - ma)
    ensures Times(Residual(x, y, l), x - ma) == Times(x - ma, y - mb) + Times(-l.slope, Times(x - ma, x - ma))
  {
    var dx, dy, s := x - ma, y - mb, l.slope;
    assert s * x == s * dx + s * ma;
    assert (dy - s * dx) * dx == dx * dy - s * (dx * dx);
  }

  /** The residuals of the fitted line sum to zero and are orthogonal to the abscissae. */
  lemma NormalEquations(a: seq<real>, b: seq<real>)
    requires RegressionScore(a, b).Some?
    ensures var r := Residuals(a, b, RegressionScore(a, b).value);
            Sum(r) == 0.0 && Sum(Products(r, Deviations(a, Mean(a)))) == 0.0
  {
    var l, ma, mb := RegressionScore(a, b).value, Mean(a), Mean(b);
    CentredLineSums(a, b, l, ma, mb);
    DeviationsCancel(a);
    DeviationsCancel(b);
    Orthogonality(CoDev(a, b, ma, mb), CoDev(a, a, ma, ma));
  }

  lemma Orthogonality(c: real, v: real)
    requires v != 0.0
    ensures c + Times(-(c / v), v) == 0.0
  {
    DivideBack(c, v);
  }

  /** Another line's cost exceeds the fitted line's by exactly the squared distance between the lines. */
  lemma CostDecomposition(a: seq<real>, b: seq<real>, l: Line, d: real, e: real)
    requires |a| == |b| && |a| > 0
    requires var r := Residuals(a, b, l); Sum(r) == 0.0 && Sum(Products(r, Deviations(a, Mean(a)))) == 0.0
    ensures Ssr(a, b, Line(l.slope + d, l.intercept + e)) == Ssr(a, b, l) + Sum(Squares(Gaps(a, d, e)))
  {
    var k, g := Mean(a), Gaps(a, d, e);
    var r, r' := Residuals(a, b, l), Residuals(a, b, Line(l.slope + d, l.intercept + e));
    var rr, rda, gg := Squares(r), Products(r, Deviations(a, k)), Squares(g);
    var u := seq(|a|, i requires 0 <= i < |a| => rr[i] + Times(1.0, gg[i]));
    var v := seq(|a|, i requires 0 <= i < |a| => u[i] + Times(-2.0 * d, rda[i]));
    var c := -2.0 * (e + Times(d, k));
    SumLinear(u, rr, gg, 1.0);
    SumLinear(v, u, rda, -2.0 * d);
    forall i | 0 <= i < |a|
      ensures Squares(r')[i] == v[i] + Times(c, r[i])
    {
      ShiftedSquare(a[i], b[i], l, d, e, k);
    }
    SumLinear(Squares(r'), v, r, c);
  }

  lemma ShiftedSquare(x: real, y: real, l: Line, d: real, e: real, k: real)
    ensures var r, r', g := Residual(x, y, l), Residual(x, y, Line(l.slope + d, l.intercept + e)), Times(d, x) + e;
            Times(r', r') == Times(r, r) + Times(1.0, Times(g, g)) + Times(-2.0 * d, Times(r, x - k))
                             + Times(-2.0 * (e + Times(d, k)), r)
  {
    var r, g := Residual(x, y, l), d * x + e;
    assert (l.slope + d) * x == l.slope * x + d * x;
    assert (r - g) * (r - g) == r * r - 2.0 * (g * r) + g * g;
    assert g * r == d * (r * (x - k)) + (e + d * k) * r;
  }

  /** A non-zero difference of lines vanishes at most at one abscissa. */
  lemma TwoRoots(d: real, e: real, x: real, y: real)
    requires x != y && Times(d, x) + e == 0.0 && Times(d, y) + e == 0.0
    ensures d == 0.0 && e == 0.0
  {
    assert d * (x - y) == 0.0;
  }

  lemma DistinctAbscissae(a: seq<real>)
    requires |a| > 0 && CoDev(a, a, Mean(a), Mean(a)) != 0.0
    ensures exists i, j :: 0 <= i < |a| && 0 <= j < |a| && a[i] != a[j]
  {
    if forall i :: 0 <= i < |a| ==> a[i] == a[0] {
      SumConstant(a, a[0]);
      CancelFactor(|a| as real, a[0]);
      VarianceZeroIffConstant(a, Mean(a));
    }
  }

  /** Whenever the closed form returns a line, that line is the one least-squares solution. */
  lemma FitIsUniqueMinimiser(a: seq<real>, b: seq<real>)
    requires RegressionScore(a, b).Some?
    ensures UniqueMinimiser(a, b, RegressionScore(a, b).value)
  {
    var l := RegressionScore(a, b).value;
    NormalEquations(a, b);
    DistinctAbscissae(a);
    var i, j :| 0 <= i < |a| && 0 <= j < |a| && a[i] != a[j];
    forall other: Line
      ensures Ssr(a, b, l) <= Ssr(a, b, other) && (Ssr(a, b, other) == Ssr(a, b, l) ==> other == l)
    {
      var d, e := other.slope - l.slope, other.intercept - l.intercept;
      CostDecomposition(a, b, l, d, e);
      assert other == Line(l.slope + d, l.intercept + e);
      var g := Gaps(a, d, e);
      SumOfSquares(g);
      if Sum(Squares(g)) == 0.0 {
        assert g[i] == 0.0 && g[j] == 0.0;
        TwoRoots(d, e, a[i], a[j]);
      }
    }
  }

  /** When every abscissa is k, turning a line about k costs nothing. */
  lemma PivotKeepsCost(a: seq<real>, b: seq<real>, l: Line, k: real)
    requires |a| == |b| && forall i :: 0 <= i < |a| ==> a[i] == k
    ensures Ssr(a, b, Line(l.slope + 1.0, l.intercept - k)) == Ssr(a, b, l)
  {
    var turned := Line(l.slope + 1.0, l.intercept - k);
    assert Times(l.slope + 1.0, k) == Times(l.slope, k) + k;
    assert Residuals(a, b, turned) == Residuals(a, b, l);
  }

  /** The early returns are exact: for paired series a line is returned if and only if
      least squares has a unique solution, and the line returned is that solution. */
  lemma ReturnsExactlyTheUniqueSolution(a: seq<real>, b: seq<real>)
    requires |a| == |b|
    ensures RegressionScore(a, b).Some? <==> exists l :: UniqueMinimiser(a, b, l)
    ensures forall l :: UniqueMinimiser(a, b, l) ==> RegressionScore(a, b) == Some(l)
  {
    if RegressionScore(a, b).Some? {
      FitIsUniqueMinimiser(a, b);
      var fit := RegressionScore(a, b).value;
      forall l | UniqueMinimiser(a, b, l)
        ensures l == fit
      {
        assert Ssr(a, b, l) <= Ssr(a, b, fit) && Ssr(a, b, fit) <= Ssr(a, b, l);
      }
    } else {
      if |a| > 0 {
        VarianceZeroIffConstant(a, Mean(a));
      }
      var k := if |a| > 0 then a[0] else 0.0;
      forall l: Line
        ensures !UniqueMinimiser(a, b, l)
      {
        PivotKeepsCost(a, b, l, k);
        var turned := Line(l.slope + 1.0, l.intercept - k);
        assert turned != l && Ssr(a, b, turned) == Ssr(a, b, l);
      }
    }
  }

  /** Cost of a line through the centroid, in terms of the two variances and the covariance. */
  lemma CentroidLineCost(a: seq<real>, b: seq<real>, s: real, ma: real, mb: real)
    requires |a| == |b|
    ensures Ssr(a, b, Line(s, mb - Times(s, ma)))
         == CoDev(b, b, mb, mb) + Times(-2.0 * s, CoDev(a, b, ma, mb)) + Times(s * s, CoDev(a, a, ma, ma))
  {
    var l := Line(s, mb - Times(s, ma));
    var r, da, db := Residuals(a, b, l), Deviations(a, ma), Deviations(b, mb);
    var bb, ab, aa := Squares(db), Products(da, db), Squares(da);
    var part := seq(|a|, i requires 0 <= i < |a| => bb[i] + Times(-2.0 * s, ab[i]));
    SumLinear(part, bb, ab, -2.0 * s);
    forall i | 0 <= i < |a|
      ensures Squares(r)[i] == part[i] + Times(s * s, aa[i])
    {
      CentredResidual(a[i], b[i], l, ma, mb);
      CentredSquare(da[i], db[i], s);
    }
    SumLinear(Squares(r), part, aa, s * s);
  }

  lemma CentredSquare(x: real, y: real, s: real)
    ensures var r := y + Times(-s, x);
            Times(r, r) == Times(y, y) + Times(-2.0 * s, Times(x, y)) + Times(s * s, Times(x, x))
  {
    var z := s * x;
    assert (y - z) * (y - z) == y * y - 2.0 * (y * z) + z * z;
    assert y * z == s * (x * y);
    assert z * z == (s * s) * (x * x);
  }

  /** A line costs nothing exactly when every point lies on it. */
  lemma SsrZeroIffOnLine(a: seq<real>, b: seq<real>, l: Line)
    requires |a| == |b|
    ensures Ssr(a, b, l) >= 0.0
    ensures Ssr(a, b, l) == 0.0 <==> forall i :: 0 <= i < |a| ==> Residual(a[i], b[i], l) == 0.0
  {
    SumOfSquares(Residuals(a, b, l));
  }
}
