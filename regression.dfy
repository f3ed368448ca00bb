/** Simple linear regression, its residual sum of squares and its predictions
    (algorithm/regression.hpp). */
module Regression {
  import opened Wrappers
  import opened Euclidean

  /** The four running sums of the regression loop. */
  datatype Sums = Sums(x: real, y: real, xx: real, xy: real)

  /** Σx, Σy, Σx², Σxy over the first n indexes. */
  function SumsOf(x: seq<real>, y: seq<real>, n: nat): Sums
    requires n <= |x| && n <= |y|
  {
    if n == 0 then Sums(0.0, 0.0, 0.0, 0.0)
    else
      var s := SumsOf(x, y, n - 1);
      Sums(s.x + x[n - 1], s.y + y[n - 1], s.xx + x[n - 1] * x[n - 1], s.xy + x[n - 1] * y[n - 1])
  }

  /** The sums with one more point (xi, yi). */
  function AddPoint(s: Sums, xi: real, yi: real): Sums
  {
    Sums(s.x + xi, s.y + yi, s.xx + xi * xi, s.xy + xi * yi)
  }

  /** n·Σx² − (Σx)², the slope's denominator. */
  function Determinant(s: Sums, n: nat): real
  {
    (n as real) * s.xx - s.x * s.x
  }

  /** (b, m) solve the normal equations n·b + m·Σx = Σy and b·Σx + m·Σx² = Σxy. */
  predicate NormalEquations(s: Sums, n: nat, b: real, m: real)
  {
    (n as real) * b + m * s.x == s.y && b * s.x + m * s.xx == s.xy
  }

  /** With a non-zero determinant the normal equations have one solution. */
  lemma NormalEquationsUnique(s: Sums, n: nat, b: real, m: real, b': real, m': real)
    requires Determinant(s, n) != 0.0
    requires NormalEquations(s, n, b, m) && NormalEquations(s, n, b', m')
    ensures b == b' && m == m'
  {
    var nr := n as real;
    var db, dm := b - b', m - m';
    assert nr * db + dm * s.x == 0.0;
    assert db * s.x + dm * s.xx == 0.0;
    assert dm * Determinant(s, n) == s.x * (nr * db + dm * s.x) - nr * (db * s.x + dm * s.xx) by {
      assert dm * Determinant(s, n) == dm * nr * s.xx - dm * s.x * s.x;
    }
    assert dm == 0.0;
    assert nr * db == 0.0;
  }

  /** The slope m = (n·Σxy − Σx·Σy) / (n·Σx² − (Σx)²) and the intercept b = (Σy − m·Σx) / n
      of n points with sums s: the least-squares line. */
  function FitFromSums(s: Sums, n: nat): (r: (real, real))
    requires Determinant(s, n) != 0.0 && n > 0
    ensures NormalEquations(s, n, r.0, r.1)
  {
    var nr := n as real;
    var m := (nr * s.xy - s.x * s.y) / Determinant(s, n);
    var b := (s.y - m * s.x) / nr;
    FormulaSolves(s, n, b, m);
    (b, m)
  }

  /** The closed forms satisfy the normal equations. */
  lemma FormulaSolves(s: Sums, n: nat, b: real, m: real)
    requires n > 0 && Determinant(s, n) != 0.0
    requires m * Determinant(s, n) == (n as real) * s.xy - s.x * s.y
    requires (n as real) * b == s.y - m * s.x
    ensures NormalEquations(s, n, b, m)
  {
    var nr := n as real;
    assert nr * (b * s.x + m * s.xx) == nr * s.xy by {
      assert nr * (b * s.x + m * s.xx) == (nr * b) * s.x + m * (nr * s.xx);
      assert m * (nr * s.xx) == m * Determinant(s, n) + m * s.x * s.x;
    }
  }

  /** No points give a zero determinant. */
  lemma EmptyDeterminant(x: seq<real>, y: seq<real>)
    ensures Determinant(SumsOf(x, y, 0), 0) == 0.0
  {
  }

  /** The regression over the first |x| values of each sequence. */
  function Fit(x: seq<real>, y: seq<real>): (r: (real, real))
    requires |x| <= |y| && Determinant(SumsOf(x, y, |x|), |x|) != 0.0
    ensures NormalEquations(SumsOf(x, y, |x|), |x|, r.0, r.1)
  {
    EmptyDeterminant(x, y);
    FitFromSums(SumsOf(x, y, |x|), |x|)
  }

  /** Points on one line have sums tied by that line. */
  lemma {:induction false} SumsOnLine(x: seq<real>, y: seq<real>, n: nat, b: real, m: real)
    requires n <= |x| && n <= |y|
    requires forall i :: 0 <= i < n ==> y[i] == b + m * x[i]
    ensures NormalEquations(SumsOf(x, y, n), n, b, m)
  {
    if n > 0 {
      SumsOnLine(x, y, n - 1, b, m);
      AddPointOnLine(x, y, n, b, m);
    }
  }

  /** One more point on the line keeps the sums' normal equations. */
  lemma AddPointOnLine(x: seq<real>, y: seq<real>, n: nat, b: real, m: real)
    requires 0 < n <= |x| && n <= |y|
    requires NormalEquations(SumsOf(x, y, n - 1), n - 1, b, m) && y[n - 1] == b + m * x[n - 1]
    ensures NormalEquations(SumsOf(x, y, n), n, b, m)
  {
    SumsOfStep(x, y, n);
    LineStep(n, b, m, SumsOf(x, y, n - 1), x[n - 1], y[n - 1]);
  }

  /** The sums of n points are those of n - 1 points with the last one added. */
  lemma SumsOfStep(x: seq<real>, y: seq<real>, n: nat)
    requires 0 < n <= |x| && n <= |y|
    ensures SumsOf(x, y, n) == AddPoint(SumsOf(x, y, n - 1), x[n - 1], y[n - 1])
  {
  }

  /** The arithmetic of one more point (xi, yi) on the line y = b + m·x: sums s of n - 1
      points that satisfy the normal equations become sums t of n points that do. */
  lemma LineStep(n: nat, b: real, m: real, s: Sums, xi: real, yi: real)
    requires n > 0 && NormalEquations(s, n - 1, b, m) && yi == b + m * xi
    ensures NormalEquations(AddPoint(s, xi, yi), n, b, m)
  {
    var t := AddPoint(s, xi, yi);
    var kr := (n - 1) as real;
    assert (n as real) == kr + 1.0;
    assert (kr + 1.0) * b == kr * b + b;
    assert m * t.x == m * s.x + m * xi;
    assert b * t.x == b * s.x + b * xi;
    assert m * t.xx == m * s.xx + m * (xi * xi);
    assert xi * yi == xi * b + xi * (m * xi);
    assert xi * (m * xi) == m * (xi * xi);
  }

  /** For points lying exactly on the line y = b + m·x with a non-zero determinant (at
      least two distinct x), the fit returns that line's intercept and slope. */
  lemma ExactLine(x: seq<real>, y: seq<real>, b: real, m: real)
    requires |x| == |y| && Determinant(SumsOf(x, y, |x|), |x|) != 0.0
    requires forall i :: 0 <= i < |x| ==> y[i] == b + m * x[i]
    ensures Fit(x, y) == (b, m)
  {
    SumsOnLine(x, y, |x|, b, m);
    var r := Fit(x, y);
    NormalEquationsUnique(SumsOf(x, y, |x|), |x|, r.0, r.1, b, m);
  }

  /** The regression's loop over the first n indexes. */
  method AccumulateSums(x: seq<real>, y: seq<real>, n: nat) returns (s: Sums)
    requires n <= |x| && n <= |y|
    ensures s == SumsOf(x, y, n)
  {
    s := Sums(0.0, 0.0, 0.0, 0.0);
    var i := 0;
    while i < n
      invariant 0 <= i <= n
      invariant s == SumsOf(x, y, i)
    {
      s := Sums(s.x + x[i], s.y + y[i], s.xx + x[i] * x[i], s.xy + x[i] * y[i]);
      i := i + 1;
    }
  }

  /** `simple_linear_regression(x, y)` as written: the size check compares x's length with
      itself, so it never raises, and y is read at every index below |x|. */
  method SimpleLinearRegressionAsWritten(x: seq<real>, y: seq<real>) returns (r: Result<(real, real)>)
    requires |x| <= |y| && Determinant(SumsOf(x, y, |x|), |x|) != 0.0
    ensures r == Ok(Fit(x, y))
  {
    var xCount, yCount := |x|, |x|;
    if xCount != yCount {
      return Err("x and y size mismatch");
    }
    var s := AccumulateSums(x, y, |x|);
    EmptyDeterminant(x, y);
    r := Ok(FitFromSums(s, |x|));
  }

  /** `simple_linear_regression(x, y)` with the size check comparing x with y: the pair
      (intercept, slope) of the least-squares line, or the size-mismatch error. */
  method SimpleLinearRegression(x: seq<real>, y: seq<real>) returns (r: Result<(real, real)>)
    requires |x| == |y| ==> Determinant(SumsOf(x, y, |x|), |x|) != 0.0
    ensures |x| != |y| ==> r == Err("x and y size mismatch")
    ensures |x| == |y| ==> r == Ok(Fit(x, y))
  {
    if |x| != |y| {
      return Err("x and y size mismatch");
    }
    var s := AccumulateSums(x, y, |x|);
    EmptyDeterminant(x, y);
    r := Ok(FitFromSums(s, |x|));
  }

  /** x = [0, 1] against y = [1, 3, 5]: the check as written lets the mismatch through. */
  method RegressionSizeCounterexample() returns (asWritten: Result<(real, real)>, intended: Result<(real, real)>)
    ensures asWritten == Ok((1.0, 2.0))
    ensures intended == Err("x and y size mismatch")
  {
    var x, y := [0.0, 1.0], [1.0, 3.0, 5.0];
    assert SumsOf(x, y, 1) == Sums(0.0, 1.0, 0.0, 0.0);
    assert SumsOf(x, y, 2) == Sums(1.0, 4.0, 1.0, 3.0);
    asWritten := SimpleLinearRegressionAsWritten(x, y);
    intended := SimpleLinearRegression(x, y);
  }

  /** The residual sum of squares Σ(aᵢ − pᵢ)² of equally long sequences, or the error. */
  function RssOf(actual: seq<real>, predicted: seq<real>): (r: Result<real>)
    ensures r.Err? <==> |actual| != |predicted|
    ensures r.Ok? ==> r.value >= 0.0 && (r.value == 0.0 <==> actual == predicted)
  {
    if |actual| != |predicted| then Err("x and y size mismatch")
    else Ok(TupleDistanceSquared(actual, predicted))
  }

  /** `rss(actual, predicted)`. */
  method Rss(actual: seq<real>, predicted: seq<real>) returns (r: Result<real>)
    ensures r == RssOf(actual, predicted)
  {
    if |actual| != |predicted| {
      return Err("x and y size mismatch");
    }
    var sum := 0.0;
    var i := 0;
    while i < |actual|
      invariant 0 <= i <= |actual|
      invariant sum == SquaredSum(actual, predicted, i)
    {
      var epsilon := actual[i] - predicted[i];
      sum := sum + epsilon * epsilon;
      i := i + 1;
    }
    r := Ok(sum);
  }

  /** The line's value b0 + b1·x at every x of the range. */
  function Predicted(range: seq<real>, line: (real, real)): (r: seq<real>)
    ensures |r| == |range|
    ensures forall i :: 0 <= i < |range| ==> r[i] == line.0 + line.1 * range[i]
  {
    seq(|range|, i requires 0 <= i < |range| => line.0 + line.1 * range[i])
  }

  /** `predict_by_simple_linear_regression(range, fitted_line)`. */
  method PredictBySimpleLinearRegression(range: seq<real>, line: (real, real)) returns (result: seq<real>)
    ensures result == Predicted(range, line)
  {
    result := [];
    for i := 0 to |range|
      invariant |result| == i
      invariant forall j :: 0 <= j < i ==> result[j] == line.0 + line.1 * range[j]
    {
      result := result + [line.0 + line.1 * range[i]];
    }
    assert forall j :: 0 <= j < |range| ==> result[j] == Predicted(range, line)[j];
  }

  /** Predicting points that lie on a line from their own fit leaves no residual. */
  lemma ExactFitNoResidual(x: seq<real>, y: seq<real>, b: real, m: real)
    requires |x| == |y| && Determinant(SumsOf(x, y, |x|), |x|) != 0.0
    requires forall i :: 0 <= i < |x| ==> y[i] == b + m * x[i]
    ensures RssOf(y, Predicted(x, Fit(x, y))) == Ok(0.0)
  {
    ExactLine(x, y, b, m);
    forall i | 0 <= i < |x| ensures Predicted(x, (b, m))[i] == y[i] {}
    assert Predicted(x, Fit(x, y)) == y;
  }
}
