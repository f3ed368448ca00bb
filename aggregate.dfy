/** Aggregates over containers (algorithm/aggregate.hpp). */
module Aggregate {
  import opened Wrappers
  import opened Numeric
  import opened Euclidean
  import opened Operations
  import opened Optimize

  /** `less` on reals, or `greater` when `greater` holds: the order the linkage metrics pick. */
  predicate Precedes(greater: bool, x: real, y: real)
  {
    if greater then x > y else x < y
  }

  /** `std::min_element` with a comparator, as a position: the running best is replaced only
      by an element that strictly precedes it, and an empty range gives its end. The comparator
      is the caller's, and `min_element` demands a strict weak order of it. */
  function MinElement<T(!new)>(cont: seq<T>, lt: (T, T) -> bool): (i: nat)
    requires Irreflexive(lt) && Transitive(lt) && NegativelyTransitive(lt)
    ensures |cont| == 0 ==> i == 0
    ensures |cont| > 0 ==> i < |cont|
    ensures |cont| > 0 ==> forall j :: 0 <= j < |cont| ==> !lt(cont[j], cont[i])
    ensures |cont| > 0 ==> forall j :: 0 <= j < i ==> lt(cont[i], cont[j])
  {
    if |cont| <= 1 then 0
    else
      var k := MinElement(cont[..|cont| - 1], lt);
      assert forall j :: 0 <= j < |cont| - 1 ==> cont[..|cont| - 1][j] == cont[j];
      if lt(cont[|cont| - 1], cont[k]) then |cont| - 1 else k
  }

  /** `min`: `min_element` with the default `less`, the index of the first minimal element. */
  function MinIndex(cont: seq<real>): (i: nat)
    ensures |cont| == 0 ==> i == 0
    ensures |cont| > 0 ==> (i < |cont| && (forall j :: 0 <= j < |cont| ==> cont[i] <= cont[j])
                            && (forall j :: 0 <= j < i ==> cont[j] > cont[i]))
  {
    MinElement(cont, (x: real, y: real) => x < y)
  }

  /** `max`: `min_element` with the default `greater`, the index of the first maximal element. */
  function MaxIndex(cont: seq<real>): (i: nat)
    ensures |cont| == 0 ==> i == 0
    ensures |cont| > 0 ==> (i < |cont| && (forall j :: 0 <= j < |cont| ==> cont[i] >= cont[j])
                            && (forall j :: 0 <= j < i ==> cont[j] < cont[i]))
  {
    MinElement(cont, (x: real, y: real) => x > y)
  }

  /** Σ op(x) over the container, accumulated from the front. */
  function SumOf<T>(cont: seq<T>, op: T -> real): real
  {
    if |cont| == 0 then 0.0 else SumOf(cont[..|cont| - 1], op) + op(cont[|cont| - 1])
  }

  lemma {:induction false} SumOfConcat<T>(a: seq<T>, b: seq<T>, op: T -> real)
    ensures SumOf(a + b, op) == SumOf(a, op) + SumOf(b, op)
    decreases |b|
  {
    if |b| > 0 {
      var b' := b[..|b| - 1];
      assert (a + b)[..|a + b| - 1] == a + b';
      SumOfConcat(a, b', op);
    } else {
      assert a + b == a;
    }
  }

  /** `sum(start, end, op)`: 0 for an empty range. */
  method Sum<T>(cont: seq<T>, op: T -> real) returns (sum: real)
    ensures sum == SumOf(cont, op)
    ensures |cont| == 0 ==> sum == 0.0
  {
    sum := 0.0;
    var i := 0;
    while i < |cont|
      invariant 0 <= i <= |cont|
      invariant sum == SumOf(cont[..i], op)
    {
      assert cont[..i + 1][..i] == cont[..i];
      sum := sum + op(cont[i]);
      i := i + 1;
    }
    assert cont[..i] == cont;
  }

  /** `avg(cont, op)`: the sum divided by the size; the container must not be empty. */
  method Avg<T>(cont: seq<T>, op: T -> real) returns (avg: real)
    requires |cont| > 0
    ensures avg * (|cont| as real) == SumOf(cont, op)
  {
    var sum := 0.0;
    var i := 0;
    while i < |cont|
      invariant 0 <= i <= |cont|
      invariant sum == SumOf(cont[..i], op)
    {
      assert cont[..i + 1][..i] == cont[..i];
      sum := sum + op(cont[i]);
      i := i + 1;
    }
    assert cont[..i] == cont;
    avg := sum / (|cont| as real);
  }

  /** All points of the container have d components. */
  predicate Dimension(cont: seq<Point>, d: nat)
  {
    forall i :: 0 <= i < |cont| ==> |cont[i]| == d
  }

  /** Σ p[c] over the container's points, from the front. */
  function ColumnSum(cont: seq<Point>, c: nat): real
    requires forall i :: 0 <= i < |cont| ==> c < |cont[i]|
  {
    if |cont| == 0 then 0.0 else ColumnSum(cont[..|cont| - 1], c) + cont[|cont| - 1][c]
  }

  /** The running `element_add` of all points into the value-initialised centre. */
  function VectorSum(cont: seq<Point>, d: nat): (s: Point)
    requires Dimension(cont, d)
    ensures |s| == d
  {
    if |cont| == 0 then Zeros(d)
    else
      var front := cont[..|cont| - 1];
      assert forall i :: 0 <= i < |front| ==> front[i] == cont[i];
      ElementAdd(VectorSum(front, d), cont[|cont| - 1])
  }

  /** Component c of the running sum is the sum of column c. */
  lemma {:induction false} VectorSumColumns(cont: seq<Point>, d: nat)
    requires Dimension(cont, d)
    ensures forall c {:trigger VectorSum(cont, d)[c]} :: 0 <= c < d ==> VectorSum(cont, d)[c] == ColumnSum(cont, c)
    decreases |cont|
  {
    if |cont| > 0 {
      var front := cont[..|cont| - 1];
      assert forall i :: 0 <= i < |front| ==> front[i] == cont[i];
      VectorSumColumns(front, d);
    }
  }

  /** `centroid(cont)` for points with d components: the component-wise mean. An empty
      container divides the value-initialised centre by zero; that centre is None here. */
  function CentroidOf(cont: seq<Point>, d: nat): (r: Option<Point>)
    requires Dimension(cont, d)
    ensures r.None? <==> |cont| == 0
    ensures r.Some? ==> |r.value| == d
  {
    if |cont| == 0 then None else Some(ElementDivScalar(VectorSum(cont, d), |cont| as real))
  }

  /** Each component of the centre times the size is that column's sum: the mean. */
  lemma CentroidColumns(cont: seq<Point>, d: nat)
    requires Dimension(cont, d) && |cont| > 0
    ensures |CentroidOf(cont, d).value| == d
    ensures forall c {:trigger CentroidOf(cont, d).value[c]} :: 0 <= c < d ==>
      CentroidOf(cont, d).value[c] * (|cont| as real) == ColumnSum(cont, c)
  {
    VectorSumColumns(cont, d);
  }

  /** The centre of a single point is that point. */
  lemma CentroidSingleton(p: Point)
    ensures CentroidOf([p], |p|) == Some(p)
  {
    var r := CentroidOf([p], |p|).value;
    CentroidColumns([p], |p|);
    forall c | 0 <= c < |p| ensures r[c] == p[c] {
      assert [p][..0] == [];
      assert ColumnSum([p], c) == p[c];
    }
    assert r == p;
  }

  /** `centroid(cont)`: `element_add` of every point into the value-initialised centre,
      then `element_div` by the size. */
  method Centroid(cont: seq<Point>, d: nat) returns (center: Option<Point>)
    requires Dimension(cont, d)
    ensures center == CentroidOf(cont, d)
  {
    var sum := Zeros(d);
    var i := 0;
    while i < |cont|
      invariant 0 <= i <= |cont|
      invariant Dimension(cont[..i], d)
      invariant sum == VectorSum(cont[..i], d)
    {
      assert cont[..i + 1][..i] == cont[..i];
      sum := ElementAdd(sum, cont[i]);
      i := i + 1;
    }
    assert cont[..i] == cont;
    if |cont| == 0 {
      center := None;
    } else {
      center := Some(ElementDivScalar(sum, |cont| as real));
    }
  }

  /** Σ of the unsquared distances from the container's points to `element`. */
  function DistanceSum(cont: seq<Point>, element: Point): real
    requires Dimension(cont, |element|)
  {
    if |cont| == 0 then 0.0
    else DistanceSum(cont[..|cont| - 1], element) + TupleDistance(cont[|cont| - 1], element)
  }

  /** `sum_distance_euclidean(cont, element)`: 0 for an empty container. */
  method SumDistanceEuclidean(cont: seq<Point>, element: Point) returns (sum: real)
    requires Dimension(cont, |element|)
    ensures sum == DistanceSum(cont, element)
    ensures |cont| == 0 ==> sum == 0.0
  {
    sum := 0.0;
    var i := 0;
    while i < |cont|
      invariant 0 <= i <= |cont|
      invariant sum == DistanceSum(cont[..i], element)
    {
      assert cont[..i + 1][..i] == cont[..i];
      sum := sum + TupleDistance(cont[i], element);
      i := i + 1;
    }
    assert cont[..i] == cont;
  }

  /** `sum_squared(cont, element)`: despite the name, the same sum of unsquared distances. */
  method SumSquared(cont: seq<Point>, element: Point) returns (sum: real)
    requires Dimension(cont, |element|)
    ensures sum == DistanceSum(cont, element)
    ensures |cont| == 0 ==> sum == 0.0
  {
    sum := SumDistanceEuclidean(cont, element);
  }

  /** The mean distance from the container's points to `element`, 0 for an empty one. */
  function AverageDistance(cont: seq<Point>, element: Point): (r: real)
    requires Dimension(cont, |element|)
    ensures |cont| == 0 ==> r == 0.0
  {
    if |cont| == 0 then 0.0 else DistanceSum(cont, element) / (|cont| as real)
  }

  /** The average times the size is the sum of the distances: the mean. */
  lemma AverageDistanceMean(cont: seq<Point>, element: Point)
    requires Dimension(cont, |element|) && |cont| > 0
    ensures AverageDistance(cont, element) * (|cont| as real) == DistanceSum(cont, element)
  {
  }

  /** `average_distance_euclidean(cont, element)`. */
  method AverageDistanceEuclidean(cont: seq<Point>, element: Point) returns (avg: real)
    requires Dimension(cont, |element|)
    ensures avg == AverageDistance(cont, element)
  {
    if |cont| == 0 {
      return 0.0;
    }
    var sum := SumDistanceEuclidean(cont, element);
    avg := sum / (|cont| as real);
  }
}
