/** Linkage metrics between two clusters of points (algorithm/clustering/metric.hpp). */
module ClusterMetric {
  import opened Wrappers
  import opened Numeric
  import opened Euclidean
  import opened Aggregate

  /** The initial best value: the fp maximum for min linkage, the smallest positive fp
      value for max linkage. */
  function Start(greater: bool): real
  {
    if greater then FpMinPositive else FpMax
  }

  /** Both clusters hold points with d components. */
  predicate Clusters(a: seq<Point>, b: seq<Point>, d: nat)
  {
    Dimension(a, d) && Dimension(b, d)
  }

  /** The inner loop for the point x: the running best against b[0], ..., b[m-1]. */
  function RowFold(greater: bool, x: Point, b: seq<Point>, m: nat, best: real): real
    requires m <= |b| && Dimension(b, |x|)
  {
    if m == 0 then best
    else
      var r := RowFold(greater, x, b, m - 1, best);
      var tmp := TupleDistanceSquared(x, b[m - 1]);
      if Precedes(greater, tmp, r) then tmp else r
  }

  /** The outer loop over a[0], ..., a[n-1]. */
  function Fold(greater: bool, a: seq<Point>, b: seq<Point>, d: nat, n: nat): real
    requires n <= |a| && Clusters(a, b, d)
  {
    if n == 0 then Start(greater)
    else RowFold(greater, a[n - 1], b, |b|, Fold(greater, a, b, d, n - 1))
  }

  /** The value `euclidean_distance_metric` computes. */
  function Linkage(greater: bool, a: seq<Point>, b: seq<Point>, d: nat): real
    requires Clusters(a, b, d)
  {
    Fold(greater, a, b, d, |a|)
  }

  /** r is the extremum of the start value and the squared distances of all pairs in a × b:
      nothing precedes it, and it is the start value or one of the distances. */
  predicate Extremum(greater: bool, a: seq<Point>, b: seq<Point>, d: nat, r: real)
    requires Clusters(a, b, d)
  {
    !Precedes(greater, Start(greater), r)
    && (forall i, j :: 0 <= i < |a| && 0 <= j < |b| ==>
          !Precedes(greater, TupleDistanceSquared(a[i], b[j]), r))
    && (r == Start(greater)
        || exists i, j :: 0 <= i < |a| && 0 <= j < |b| && r == TupleDistanceSquared(a[i], b[j]))
  }

  lemma {:induction false} RowFoldExtremum(greater: bool, x: Point, b: seq<Point>, m: nat, best: real)
    requires m <= |b| && Dimension(b, |x|)
    ensures var r := RowFold(greater, x, b, m, best);
      !Precedes(greater, best, r)
      && (forall j :: 0 <= j < m ==> !Precedes(greater, TupleDistanceSquared(x, b[j]), r))
      && (r == best || exists j :: 0 <= j < m && r == TupleDistanceSquared(x, b[j]))
  {
    if m > 0 {
      RowFoldExtremum(greater, x, b, m - 1, best);
    }
  }

  lemma {:induction false} FoldExtremum(greater: bool, a: seq<Point>, b: seq<Point>, d: nat, n: nat)
    requires n <= |a| && Clusters(a, b, d)
    ensures var r := Fold(greater, a, b, d, n);
      !Precedes(greater, Start(greater), r)
      && (forall i, j :: 0 <= i < n && 0 <= j < |b| ==>
            !Precedes(greater, TupleDistanceSquared(a[i], b[j]), r))
      && (r == Start(greater)
          || exists i, j :: 0 <= i < n && 0 <= j < |b| && r == TupleDistanceSquared(a[i], b[j]))
  {
    if n > 0 {
      var prev := Fold(greater, a, b, d, n - 1);
      FoldExtremum(greater, a, b, d, n - 1);
      RowFoldExtremum(greater, a[n - 1], b, |b|, prev);
      var r := Fold(greater, a, b, d, n);
      if r != prev {
        var j :| 0 <= j < |b| && r == TupleDistanceSquared(a[n - 1], b[j]);
      } else if r != Start(greater) {
        var i, j :| 0 <= i < n - 1 && 0 <= j < |b| && prev == TupleDistanceSquared(a[i], b[j]);
      }
    }
  }

  /** Min linkage is the minimum squared distance over a × b, max linkage the maximum, each
      against its start value; with an empty cluster the start value is returned. */
  lemma LinkageExtremum(greater: bool, a: seq<Point>, b: seq<Point>, d: nat)
    requires Clusters(a, b, d)
    ensures Extremum(greater, a, b, d, Linkage(greater, a, b, d))
    ensures |a| == 0 || |b| == 0 ==> Linkage(greater, a, b, d) == Start(greater)
  {
    FoldExtremum(greater, a, b, d, |a|);
  }

  /** The extremum does not depend on which cluster comes first. */
  lemma ExtremumSymmetric(greater: bool, a: seq<Point>, b: seq<Point>, d: nat, r1: real, r2: real)
    requires Clusters(a, b, d)
    requires Extremum(greater, a, b, d, r1) && Extremum(greater, b, a, d, r2)
    ensures r1 == r2
  {
    if r1 != Start(greater) {
      var i, j :| 0 <= i < |a| && 0 <= j < |b| && r1 == TupleDistanceSquared(a[i], b[j]);
      TupleDistanceSquaredSymmetric(a[i], b[j]);
      assert !Precedes(greater, TupleDistanceSquared(b[j], a[i]), r2);
    }
    if r2 != Start(greater) {
      var j, i :| 0 <= j < |b| && 0 <= i < |a| && r2 == TupleDistanceSquared(b[j], a[i]);
      TupleDistanceSquaredSymmetric(b[j], a[i]);
      assert !Precedes(greater, TupleDistanceSquared(a[i], b[j]), r1);
    }
  }

  /** Swapping the clusters changes neither linkage. */
  lemma LinkageSymmetric(greater: bool, a: seq<Point>, b: seq<Point>, d: nat)
    requires Clusters(a, b, d)
    ensures Linkage(greater, a, b, d) == Linkage(greater, b, a, d)
  {
    LinkageExtremum(greater, a, b, d);
    LinkageExtremum(greater, b, a, d);
    ExtremumSymmetric(greater, a, b, d, Linkage(greater, a, b, d), Linkage(greater, b, a, d));
  }

  /** `euclidean_distance_metric<min>` (greater = false) and `<max>` (greater = true): the
      two nested loops keep the best squared distance under the comparator. */
  method EuclideanDistanceMetric(greater: bool, a: seq<Point>, b: seq<Point>, d: nat) returns (best: real)
    requires Clusters(a, b, d)
    ensures best == Linkage(greater, a, b, d)
  {
    best := Start(greater);
    var i := 0;
    while i < |a|
      invariant 0 <= i <= |a|
      invariant best == Fold(greater, a, b, d, i)
    {
      ghost var rowStart := best;
      var j := 0;
      while j < |b|
        invariant 0 <= j <= |b|
        invariant best == RowFold(greater, a[i], b, j, rowStart)
      {
        var tmp := TupleDistanceSquared(a[i], b[j]);
        if Precedes(greater, tmp, best) {
          best := tmp;
        }
        j := j + 1;
      }
      i := i + 1;
    }
  }

  /** `euclidean_centroid_metric`: the squared distance between the two centroids; the
      centroid of an empty cluster is not a number, so both clusters must hold points. */
  function CentroidMetric(a: seq<Point>, b: seq<Point>, d: nat): (r: real)
    requires Clusters(a, b, d) && |a| > 0 && |b| > 0
    ensures r >= 0.0
    ensures r == 0.0 <==> CentroidOf(a, d) == CentroidOf(b, d)
  {
    TupleDistanceSquared(CentroidOf(a, d).value, CentroidOf(b, d).value)
  }

  lemma CentroidMetricSymmetric(a: seq<Point>, b: seq<Point>, d: nat)
    requires Clusters(a, b, d) && |a| > 0 && |b| > 0
    ensures CentroidMetric(a, b, d) == CentroidMetric(b, a, d)
  {
    TupleDistanceSquaredSymmetric(CentroidOf(a, d).value, CentroidOf(b, d).value);
  }

  /** Σ_{k<m} of the unsquared distances from x to b[k]. */
  function RowDistanceSum(x: Point, b: seq<Point>, m: nat): real
    requires m <= |b| && Dimension(b, |x|)
  {
    if m == 0 then 0.0 else RowDistanceSum(x, b, m - 1) + TupleDistance(x, b[m - 1])
  }

  /** Σ over a × b of the unsquared distances, row by row. */
  function GroupSum(a: seq<Point>, b: seq<Point>, d: nat, n: nat): real
    requires n <= |a| && Clusters(a, b, d)
  {
    if n == 0 then 0.0 else GroupSum(a, b, d, n - 1) + RowDistanceSum(a[n - 1], b, |b|)
  }

  /** Appending a point to the second cluster adds its distance to every point of the first. */
  lemma {:induction false} GroupSumAppendColumn(a: seq<Point>, b: seq<Point>, x: Point, d: nat, n: nat)
    requires n <= |a| && Clusters(a, b, d) && |x| == d
    ensures Clusters(a, b + [x], d)
    ensures GroupSum(a, b + [x], d, n) == GroupSum(a, b, d, n) + RowDistanceSum(x, a, n)
  {
    var b' := b + [x];
    if n > 0 {
      GroupSumAppendColumn(a, b, x, d, n - 1);
      RowDistanceSumPrefix(a[n - 1], b, b', |b|);
      TupleDistanceSymmetric(a[n - 1], x);
    }
  }

  /** A row sum only reads the first m points. */
  lemma {:induction false} RowDistanceSumPrefix(x: Point, b: seq<Point>, b': seq<Point>, m: nat)
    requires m <= |b| && m <= |b'| && Dimension(b, |x|) && Dimension(b', |x|)
    requires b[..m] == b'[..m]
    ensures RowDistanceSum(x, b, m) == RowDistanceSum(x, b', m)
  {
    if m > 0 {
      assert b[m - 1] == b[..m][m - 1] == b'[m - 1];
      assert b[..m - 1] == b[..m][..m - 1] == b'[..m][..m - 1] == b'[..m - 1];
      RowDistanceSumPrefix(x, b, b', m - 1);
    }
  }

  /** A group sum only reads the first n points of the first cluster. */
  lemma {:induction false} GroupSumPrefix(a: seq<Point>, a': seq<Point>, b: seq<Point>, d: nat, n: nat)
    requires n <= |a| && n <= |a'| && Clusters(a, b, d) && Clusters(a', b, d)
    requires a[..n] == a'[..n]
    ensures GroupSum(a, b, d, n) == GroupSum(a', b, d, n)
  {
    if n > 0 {
      assert a[n - 1] == a[..n][n - 1] == a'[n - 1];
      assert a[..n - 1] == a[..n][..n - 1] == a'[..n][..n - 1] == a'[..n - 1];
      GroupSumPrefix(a, a', b, d, n - 1);
    }
  }

  /** Summing over a × b or over b × a gives the same total. */
  lemma {:induction false} GroupSumSymmetric(a: seq<Point>, b: seq<Point>, d: nat)
    requires Clusters(a, b, d)
    ensures GroupSum(a, b, d, |a|) == GroupSum(b, a, d, |b|)
    decreases |a|
  {
    if |a| == 0 {
      ZeroGroupSum(b, a, d, |b|);
    } else {
      var a' := a[..|a| - 1];
      var x := a[|a| - 1];
      assert a == a' + [x];
      GroupSumSymmetric(a', b, d);
      GroupSumPrefix(a, a', b, d, |a'|);
      GroupSumAppendColumn(b, a', x, d, |b|);
    }
  }

  /** Against an empty first cluster every row sum is 0. */
  lemma {:induction false} ZeroGroupSum(a: seq<Point>, b: seq<Point>, d: nat, n: nat)
    requires n <= |a| && Clusters(a, b, d) && |b| == 0
    ensures GroupSum(a, b, d, n) == 0.0
  {
    if n > 0 {
      ZeroGroupSum(a, b, d, n - 1);
    }
  }

  /** The group average: the sum of unsquared distances over a × b divided by |a|·|b|. */
  function GroupAverage(a: seq<Point>, b: seq<Point>, d: nat): real
    requires Clusters(a, b, d) && |a| > 0 && |b| > 0
  {
    GroupSum(a, b, d, |a|) / ((|a| * |b|) as real)
  }

  lemma GroupAverageSymmetric(a: seq<Point>, b: seq<Point>, d: nat)
    requires Clusters(a, b, d) && |a| > 0 && |b| > 0
    ensures GroupAverage(a, b, d) == GroupAverage(b, a, d)
  {
    GroupSumSymmetric(a, b, d);
    assert |a| * |b| == |b| * |a|;
  }

  /** `euclidean_group_average_metric`: both clusters must hold points, since the count
      |a|·|b| divides the sum. */
  method EuclideanGroupAverageMetric(a: seq<Point>, b: seq<Point>, d: nat) returns (average: real)
    requires Clusters(a, b, d) && |a| > 0 && |b| > 0
    ensures average * ((|a| * |b|) as real) == GroupSum(a, b, d, |a|)
    ensures average == GroupAverage(a, b, d)
  {
    var sum := 0.0;
    var count := (|a| * |b|) as real;
    var i := 0;
    while i < |a|
      invariant 0 <= i <= |a|
      invariant sum == GroupSum(a, b, d, i)
    {
      ghost var rowStart := sum;
      var j := 0;
      while j < |b|
        invariant 0 <= j <= |b|
        invariant sum == rowStart + RowDistanceSum(a[i], b, j)
      {
        sum := sum + TupleDistance(a[i], b[j]);
        j := j + 1;
      }
      i := i + 1;
    }
    MulPositive(|a| as real, |b| as real);
    average := sum / count;
  }
}
