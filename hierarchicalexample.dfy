/** Hierarchical clustering of three points under min linkage, the repository's own test case
    (test/test_algo_clustering_hierarchical.cpp). */
module HierarchicalExample {
  import opened Wrappers
  import opened Numeric
  import opened Euclidean
  import opened GraphNode
  import opened Hierarchical
  import opened ClusterMetric

  /** `default_metric_function`: the min linkage, on points with two components. */
  const DefaultMetricFunction: (seq<Point>, seq<Point>) --> real :=
    (a: seq<Point>, b: seq<Point>) requires Clusters(a, b, 2) => Linkage(false, a, b, 2)

  /** The points {1, 1}, {2, 2}, {10, 10}. */
  const Data: seq<Point> := [[1.0, 1.0], [2.0, 2.0], [10.0, 10.0]]

  /** No two of the points are further apart than 162 (squared). */
  lemma DataDistanceBound(x: Point, y: Point)
    requires x in Data && y in Data
    ensures |x| == |y| == 2 && TupleDistanceSquared(x, y) <= 162.0
  {
    assert SquaredSum(x, y, 1) == Square(x[0] - y[0]);
    assert TupleDistanceSquared(x, y) == SquaredSum(x, y, 1) + Square(x[1] - y[1]);
  }

  /** Min linkage on clusters of these points is defined and below the fp maximum, so every
      iteration selects a pair. */
  lemma DataMetricBounded()
    ensures MetricBounded(Data, DefaultMetricFunction)
  {
    forall a, b | Drawn(a, Data) && Drawn(b, Data)
      ensures DefaultMetricFunction.requires(a, b) && DefaultMetricFunction(a, b) < FpMax
    {
      assert a[0] in a && b[0] in b;
      forall i | 0 <= i < |a| ensures |a[i]| == 2 { assert a[i] in a; }
      forall i | 0 <= i < |b| ensures |b[i]| == 2 { assert b[i] in b; }
      LinkageExtremum(false, a, b, 2);
      DataDistanceBound(a[0], b[0]);
    }
  }

  /** The three points end in one root whose sequence id is 5. */
  method ThreePointRoot() returns (r: Result<Node<NodeData>>)
    ensures r.Ok? && r.value.value.seqId == 5
    ensures LeafCount(r.value) == 3
  {
    DataMetricBounded();
    r := HierarchicalClustering(Data, DefaultMetricFunction);
  }
}
