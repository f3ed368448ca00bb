/** k-means seeding and rebalancing (algorithm/clustering/kmeans.hpp). The cluster map and
    the centroid map are keyed 0 .. k-1 and are sequences here, visited in key order. */
module KMeans {
  import opened Wrappers
  import opened Numeric
  import opened Euclidean
  import opened Distance
  import opened Aggregate

  /** The cluster map and the centroid map; a centroid is None where the cluster is empty
      (the source divides by a zero size there). */
  datatype State = State(clusters: seq<seq<Point>>, centroids: seq<Option<Point>>)

  /** Every cluster's points have d components. */
  predicate AllDimension(cs: seq<seq<Point>>, d: nat)
  {
    forall c :: 0 <= c < |cs| ==> Dimension(cs[c], d)
  }

  /** One centroid per cluster, and every point has d components. */
  predicate WellFormed(st: State, d: nat)
  {
    |st.centroids| == |st.clusters| && AllDimension(st.clusters, d)
  }

  /** Each centroid is the centroid of its cluster. */
  predicate Consistent(st: State, d: nat)
    requires WellFormed(st, d)
  {
    forall c :: 0 <= c < |st.clusters| ==> st.centroids[c] == CentroidOf(st.clusters[c], d)
  }

  /** The multiset of all points held by the clusters. */
  function Elements(cs: seq<seq<Point>>): multiset<Point>
    decreases |cs|
  {
    if |cs| == 0 then multiset{} else Elements(cs[..|cs| - 1]) + multiset(cs[|cs| - 1])
  }

  lemma {:induction false} ElementsUpdate(cs: seq<seq<Point>>, i: nat, x: seq<Point>)
    requires i < |cs|
    ensures Elements(cs[i := x]) + multiset(cs[i]) == Elements(cs) + multiset(x)
    decreases |cs|
  {
    var n := |cs| - 1;
    var cs' := cs[i := x];
    if i < n {
      assert cs'[..n] == cs[..n][i := x];
      assert cs'[n] == cs[n];
      ElementsUpdate(cs[..n], i, x);
      assert cs[..n][i] == cs[i];
      calc {
        Elements(cs') + multiset(cs[i]);
        Elements(cs[..n][i := x]) + multiset(cs[n]) + multiset(cs[i]);
        (Elements(cs[..n][i := x]) + multiset(cs[i])) + multiset(cs[n]);
        Elements(cs[..n]) + multiset(x) + multiset(cs[n]);
      }
    } else {
      assert cs'[..n] == cs[..n];
      assert Elements(cs') == Elements(cs[..n]) + multiset(x);
    }
    assert Elements(cs) == Elements(cs[..n]) + multiset(cs[n]);
  }

  /** A point is held by the clusters exactly when some cluster contains it. */
  lemma {:induction false} InElements(cs: seq<seq<Point>>, x: Point)
    ensures x in Elements(cs) <==> exists c :: 0 <= c < |cs| && x in cs[c]
    decreases |cs|
  {
    if |cs| > 0 {
      var n := |cs| - 1;
      InElements(cs[..n], x);
      if x in Elements(cs[..n]) {
        var c :| 0 <= c < n && x in cs[..n][c];
        assert x in cs[c];
      }
      if exists c :: 0 <= c < |cs| && x in cs[c] {
        var c :| 0 <= c < |cs| && x in cs[c];
        if c < n {
          assert x in cs[..n][c];
        }
      }
    }
  }

  // ---------------------------------------------------------------------------------------
  // create_k_means_clusters_from_selection
  // ---------------------------------------------------------------------------------------

  /** The measure the seeding loop compares with: cluster 0 by `distance_euclidean`, every
      other cluster by `distance_euclidean_squared`. */
  function SeedingDistance(j: nat, centroid: Point, sample: Point, skipLastN: nat): real
    requires |centroid| == |sample| && skipLastN <= |sample|
  {
    if j == 0 then TupleDistanceSkip(centroid, sample, skipLastN)
    else TupleDistanceSquaredSkip(centroid, sample, skipLastN)
  }

  /** The first cluster whose centroid is nearest to the sample by that measure. */
  function Closest(centers: seq<Point>, sample: Point, skipLastN: nat): (i: nat)
    requires |centers| > 0 && skipLastN <= |sample|
    requires forall j :: 0 <= j < |centers| ==> |centers[j]| == |sample|
    ensures i < |centers|
  {
    MinIndex(Measures(centers, sample, skipLastN))
  }

  /** No centroid is nearer than the closest one, and every earlier one is farther. */
  lemma ClosestMinimal(centers: seq<Point>, sample: Point, skipLastN: nat)
    requires |centers| > 0 && skipLastN <= |sample|
    requires forall j :: 0 <= j < |centers| ==> |centers[j]| == |sample|
    ensures var i := Closest(centers, sample, skipLastN);
      (forall j :: 0 <= j < |centers| ==>
         SeedingDistance(i, centers[i], sample, skipLastN) <= SeedingDistance(j, centers[j], sample, skipLastN))
      && (forall j :: 0 <= j < i ==>
         SeedingDistance(j, centers[j], sample, skipLastN) > SeedingDistance(i, centers[i], sample, skipLastN))
  {
    var m := Measures(centers, sample, skipLastN);
    assert Closest(centers, sample, skipLastN) == MinIndex(m);
  }

  function Measures(centers: seq<Point>, sample: Point, skipLastN: nat): (m: seq<real>)
    requires skipLastN <= |sample|
    requires forall j :: 0 <= j < |centers| ==> |centers[j]| == |sample|
    ensures |m| == |centers|
    ensures forall j :: 0 <= j < |centers| ==> m[j] == SeedingDistance(j, centers[j], sample, skipLastN)
  {
    seq(|centers|, j requires 0 <= j < |centers| => SeedingDistance(j, centers[j], sample, skipLastN))
  }

  /** Every cluster holds a point and every centroid is present. */
  predicate Seeded(st: State, d: nat)
  {
    WellFormed(st, d) && |st.clusters| > 0
    && forall c :: 0 <= c < |st.clusters| ==>
         |st.clusters[c]| > 0 && st.centroids[c].Some? && |st.centroids[c].value| == d
  }

  function Centers(st: State, d: nat): (cs: seq<Point>)
    requires Seeded(st, d)
    ensures |cs| == |st.clusters|
    ensures forall c :: 0 <= c < |cs| ==> Some(cs[c]) == st.centroids[c] && |cs[c]| == d
  {
    seq(|st.clusters|, c requires 0 <= c < |st.clusters| => st.centroids[c].value)
  }

  /** The seeding loop's state after the seeds: cluster j holds seed j alone and has that
      seed's centroid. */
  function SeedState(selection: seq<(Point, nat)>, d: nat): (st: State)
    requires forall j :: 0 <= j < |selection| ==> |selection[j].0| == d
    ensures |st.clusters| == |selection| && WellFormed(st, d) && Consistent(st, d)
    ensures |selection| > 0 ==> Seeded(st, d)
    ensures forall j :: 0 <= j < |selection| ==> st.clusters[j] == [selection[j].0]
    decreases |selection|
  {
    State(seq(|selection|, j requires 0 <= j < |selection| => [selection[j].0]),
          seq(|selection|, j requires 0 <= j < |selection| => CentroidOf([selection[j].0], d)))
  }

  /** The indexes the seeds mark as used. */
  function SeedIndexes(selection: seq<(Point, nat)>): set<nat>
    decreases |selection|
  {
    if |selection| == 0 then {} else SeedIndexes(selection[..|selection| - 1]) + {selection[|selection| - 1].1}
  }

  /** One unused sample joins its closest cluster, whose centroid alone is recomputed. */
  function Assign(st: State, sample: Point, d: nat, skipLastN: nat): (r: State)
    requires Seeded(st, d) && |sample| == d && skipLastN <= d
    ensures Seeded(r, d) && |r.clusters| == |st.clusters|
  {
    var i := Closest(Centers(st, d), sample, skipLastN);
    var cluster := st.clusters[i] + [sample];
    State(st.clusters[i := cluster], st.centroids[i := CentroidOf(cluster, d)])
  }

  /** The samples 0 .. n-1 that are not seeds, assigned in ascending index order. */
  function AssignPrefix(cont: seq<Point>, used: set<nat>, st: State, n: nat, d: nat, skipLastN: nat): (r: State)
    requires n <= |cont| && Dimension(cont, d) && Seeded(st, d) && skipLastN <= d
    ensures Seeded(r, d) && |r.clusters| == |st.clusters|
    decreases n
  {
    if n == 0 then st
    else
      var prev := AssignPrefix(cont, used, st, n - 1, d, skipLastN);
      if n - 1 in used then prev else Assign(prev, cont[n - 1], d, skipLastN)
  }

  /** The clusters and centroids built from a non-empty selection: the seeds, then every
      unused sample assigned. */
  function Created(cont: seq<Point>, selection: seq<(Point, nat)>, d: nat, skipLastN: nat): (st: State)
    requires Dimension(cont, d) && skipLastN <= d && |selection| > 0
    requires forall j :: 0 <= j < |selection| ==> |selection[j].0| == d
    ensures Seeded(st, d) && |st.clusters| == |selection|
  {
    AssignPrefix(cont, SeedIndexes(selection), SeedState(selection, d), |cont|, d, skipLastN)
  }

  /** The result of `create_k_means_clusters_from_selection`. */
  function CreateFromSelection(cont: seq<Point>, selection: seq<(Point, nat)>, d: nat, skipLastN: nat): (r: Result<State>)
    requires Dimension(cont, d) && skipLastN <= d
    requires forall j :: 0 <= j < |selection| ==> |selection[j].0| == d
    ensures r.Err? <==> |selection| == 0
  {
    if |selection| == 0 then Err("Invalid cluster initialization") else Ok(Created(cont, selection, d, skipLastN))
  }

  /** The number of indexes below n that are not in `used`. */
  function UnusedCount(used: set<nat>, n: nat): nat
    decreases n
  {
    if n == 0 then 0 else UnusedCount(used, n - 1) + (if n - 1 in used then 0 else 1)
  }

  /** One assignment appends the sample to one cluster and keeps every other cluster. */
  lemma AssignAppends(st: State, sample: Point, d: nat, skipLastN: nat)
    requires Seeded(st, d) && |sample| == d && skipLastN <= d
    ensures forall c :: 0 <= c < |st.clusters| ==>
      |st.clusters[c]| <= |Assign(st, sample, d, skipLastN).clusters[c]|
      && Assign(st, sample, d, skipLastN).clusters[c][..|st.clusters[c]|] == st.clusters[c]
  {
    var i := Closest(Centers(st, d), sample, skipLastN);
    var grown := st.clusters[i] + [sample];
    assert Assign(st, sample, d, skipLastN).clusters == st.clusters[i := grown];
    assert grown[..|st.clusters[i]|] == st.clusters[i];
  }

  /** One assignment adds one point to the clusters. */
  lemma AssignGrows(st: State, sample: Point, d: nat, skipLastN: nat)
    requires Seeded(st, d) && |sample| == d && skipLastN <= d
    ensures |Elements(Assign(st, sample, d, skipLastN).clusters)| == |Elements(st.clusters)| + 1
  {
    var i := Closest(Centers(st, d), sample, skipLastN);
    var grown := st.clusters[i] + [sample];
    assert Assign(st, sample, d, skipLastN).clusters == st.clusters[i := grown];
    ElementsUpdate(st.clusters, i, grown);
    assert |Elements(st.clusters[i := grown]) + multiset(st.clusters[i])| == |Elements(st.clusters) + multiset(grown)|;
  }

  /** Assignment only appends: every cluster keeps its old points in front. */
  lemma {:induction false} AssignPrefixKeepsFront(cont: seq<Point>, used: set<nat>, st: State, n: nat, d: nat, skipLastN: nat)
    requires n <= |cont| && Dimension(cont, d) && Seeded(st, d) && skipLastN <= d
    ensures forall c :: 0 <= c < |st.clusters| ==>
      |st.clusters[c]| <= |AssignPrefix(cont, used, st, n, d, skipLastN).clusters[c]|
      && AssignPrefix(cont, used, st, n, d, skipLastN).clusters[c][..|st.clusters[c]|] == st.clusters[c]
    decreases n
  {
    if n > 0 {
      AssignPrefixKeepsFront(cont, used, st, n - 1, d, skipLastN);
      if n - 1 !in used {
        AssignAppends(AssignPrefix(cont, used, st, n - 1, d, skipLastN), cont[n - 1], d, skipLastN);
        forall c | 0 <= c < |st.clusters|
          ensures AssignPrefix(cont, used, st, n, d, skipLastN).clusters[c][..|st.clusters[c]|] == st.clusters[c]
        {
          PrefixOfPrefix(st.clusters[c], AssignPrefix(cont, used, st, n - 1, d, skipLastN).clusters[c],
                         AssignPrefix(cont, used, st, n, d, skipLastN).clusters[c]);
        }
      }
    }
  }

  /** The clusters grow by exactly the number of unused samples. */
  lemma {:induction false} AssignPrefixCount(cont: seq<Point>, used: set<nat>, st: State, n: nat, d: nat, skipLastN: nat)
    requires n <= |cont| && Dimension(cont, d) && Seeded(st, d) && skipLastN <= d
    ensures |Elements(AssignPrefix(cont, used, st, n, d, skipLastN).clusters)| == |Elements(st.clusters)| + UnusedCount(used, n)
    decreases n
  {
    if n > 0 {
      AssignPrefixCount(cont, used, st, n - 1, d, skipLastN);
      var prev := AssignPrefix(cont, used, st, n - 1, d, skipLastN);
      if n - 1 in used {
        assert AssignPrefix(cont, used, st, n, d, skipLastN) == prev;
        assert UnusedCount(used, n) == UnusedCount(used, n - 1);
      } else {
        AssignGrows(prev, cont[n - 1], d, skipLastN);
        assert AssignPrefix(cont, used, st, n, d, skipLastN) == Assign(prev, cont[n - 1], d, skipLastN);
        assert UnusedCount(used, n) == UnusedCount(used, n - 1) + 1;
      }
    }
  }

  /** Assignment recomputes the centroid of the cluster it grows, so consistent centroids
      stay consistent. */
  lemma {:induction false} AssignPrefixConsistent(cont: seq<Point>, used: set<nat>, st: State, n: nat, d: nat, skipLastN: nat)
    requires n <= |cont| && Dimension(cont, d) && Seeded(st, d) && skipLastN <= d && Consistent(st, d)
    ensures Consistent(AssignPrefix(cont, used, st, n, d, skipLastN), d)
    decreases n
  {
    if n > 0 {
      AssignPrefixConsistent(cont, used, st, n - 1, d, skipLastN);
      ConsistentNext(cont, used, st, n, d, skipLastN);
    }
  }

  lemma ConsistentNext(cont: seq<Point>, used: set<nat>, st: State, n: nat, d: nat, skipLastN: nat)
    requires 0 < n <= |cont| && Dimension(cont, d) && Seeded(st, d) && skipLastN <= d
    requires Consistent(AssignPrefix(cont, used, st, n - 1, d, skipLastN), d)
    ensures Consistent(AssignPrefix(cont, used, st, n, d, skipLastN), d)
  {
    AssignConsistent(AssignPrefix(cont, used, st, n - 1, d, skipLastN), cont[n - 1], d, skipLastN);
  }

  /** One assignment recomputes the centroid of the cluster it grows. */
  lemma AssignConsistent(st: State, sample: Point, d: nat, skipLastN: nat)
    requires Seeded(st, d) && |sample| == d && skipLastN <= d
    ensures Consistent(st, d) ==> Consistent(Assign(st, sample, d, skipLastN), d)
  {
  }

  /** A prefix of a prefix is a prefix. */
  lemma PrefixOfPrefix(a: seq<Point>, b: seq<Point>, c: seq<Point>)
    requires |a| <= |b| <= |c| && b[..|a|] == a && c[..|b|] == b
    ensures c[..|a|] == a
  {
    assert c[..|a|] == c[..|b|][..|a|];
  }

  lemma {:induction false} UnusedCountAgree(s: set<nat>, s': set<nat>, n: nat)
    requires forall i :: 0 <= i < n ==> (i in s <==> i in s')
    ensures UnusedCount(s, n) == UnusedCount(s', n)
    decreases n
  {
    if n > 0 {
      UnusedCountAgree(s, s', n - 1);
    }
  }

  /** When every used index is below n, the unused ones make up the rest. */
  lemma {:induction false} UnusedCountComplement(used: set<nat>, n: nat)
    requires forall i :: i in used ==> i < n
    ensures UnusedCount(used, n) + |used| == n
    decreases n
  {
    if n > 0 {
      var rest := used - {n - 1};
      UnusedCountComplement(rest, n - 1);
      UnusedCountAgree(used, rest, n - 1);
      if n - 1 in used {
        assert used == rest + {n - 1};
      } else {
        assert rest == used;
      }
    }
  }

  /** Pairwise distinct seed indexes mark as many samples used as there are seeds. */
  lemma {:induction false} SeedIndexesCount(selection: seq<(Point, nat)>)
    requires forall i, j :: 0 <= i < j < |selection| ==> selection[i].1 != selection[j].1
    ensures |SeedIndexes(selection)| == |selection|
    ensures forall x :: x in SeedIndexes(selection) <==> exists j :: 0 <= j < |selection| && selection[j].1 == x
    decreases |selection|
  {
    if |selection| > 0 {
      var front := selection[..|selection| - 1];
      SeedIndexesCount(front);
      assert forall j :: 0 <= j < |front| ==> front[j] == selection[j];
      assert selection[|selection| - 1].1 !in SeedIndexes(front);
    }
  }

  /** There are k clusters and k centroids, and every centroid is its cluster's. */
  lemma CreatedConsistent(cont: seq<Point>, selection: seq<(Point, nat)>, d: nat, skipLastN: nat)
    requires Dimension(cont, d) && skipLastN <= d && |selection| > 0
    requires forall j :: 0 <= j < |selection| ==> |selection[j].0| == d
    ensures |Created(cont, selection, d, skipLastN).centroids| == |selection|
    ensures Consistent(Created(cont, selection, d, skipLastN), d)
  {
    AssignPrefixConsistent(cont, SeedIndexes(selection), SeedState(selection, d), |cont|, d, skipLastN);
  }

  /** Seed j heads cluster j. */
  lemma CreatedSeedsHead(cont: seq<Point>, selection: seq<(Point, nat)>, d: nat, skipLastN: nat)
    requires Dimension(cont, d) && skipLastN <= d && |selection| > 0
    requires forall j :: 0 <= j < |selection| ==> |selection[j].0| == d
    ensures forall j :: 0 <= j < |selection| ==>
      |Created(cont, selection, d, skipLastN).clusters[j]| > 0 && Created(cont, selection, d, skipLastN).clusters[j][0] == selection[j].0
  {
    var seeds := SeedState(selection, d);
    AssignPrefixKeepsFront(cont, SeedIndexes(selection), seeds, |cont|, d, skipLastN);
    forall j | 0 <= j < |selection|
      ensures Created(cont, selection, d, skipLastN).clusters[j][0] == selection[j].0
    {
      assert Created(cont, selection, d, skipLastN).clusters[j][..1] == [selection[j].0];
    }
  }

  /** With pairwise distinct seed indexes of samples, the cluster sizes sum to the number of
      samples: every sample lands in exactly one cluster. */
  lemma CreatedCount(cont: seq<Point>, selection: seq<(Point, nat)>, d: nat, skipLastN: nat)
    requires Dimension(cont, d) && skipLastN <= d && |selection| > 0
    requires forall j :: 0 <= j < |selection| ==> |selection[j].0| == d
    requires forall i, j :: 0 <= i < j < |selection| ==> selection[i].1 != selection[j].1
    requires forall j :: 0 <= j < |selection| ==> selection[j].1 < |cont|
    ensures |Elements(Created(cont, selection, d, skipLastN).clusters)| == |cont|
  {
    var seeds := SeedState(selection, d);
    var used := SeedIndexes(selection);
    AssignPrefixCount(cont, used, seeds, |cont|, d, skipLastN);
    ElementsSingletons(seeds.clusters);
    SeedIndexesCount(selection);
    UnusedCountComplement(used, |cont|);
  }

  /** Clusters of one point each hold one point per cluster. */
  lemma {:induction false} ElementsSingletons(cs: seq<seq<Point>>)
    requires forall c :: 0 <= c < |cs| ==> |cs[c]| == 1
    ensures |Elements(cs)| == |cs|
  {
    if |cs| > 0 {
      ElementsSingletons(cs[..|cs| - 1]);
    }
  }

  /** The inner loop over clusters 1 .. k-1 against the running closest distance. */
  method ClosestCluster(centers: seq<Point>, sample: Point, skipLastN: nat) returns (closest: nat)
    requires |centers| > 0 && skipLastN <= |sample|
    requires forall j :: 0 <= j < |centers| ==> |centers[j]| == |sample|
    ensures closest == Closest(centers, sample, skipLastN)
  {
    ghost var m := Measures(centers, sample, skipLastN);
    closest := 0;
    var closestDist := TupleDistanceSkip(centers[0], sample, skipLastN);
    assert m[..1] == [m[0]];
    for j := 1 to |centers|
      invariant closest == MinIndex(m[..j]) && closestDist == m[closest]
    {
      var temp := TupleDistanceSquaredSkip(centers[j], sample, skipLastN);
      assert m[..j + 1][..j] == m[..j];
      if temp < closestDist {
        closestDist := temp;
        closest := j;
      }
    }
    assert m[..|centers|] == m;
  }

  /** The used indexes are the seeds' and those below k; marking k keeps that so. */
  lemma MarkUsed(used: set<nat>, seedUsed: set<nat>, k: nat)
    requires forall i: nat :: i in used <==> i in seedUsed || i < k
    ensures k in used <==> k in seedUsed
    ensures k in used ==> forall i: nat :: i in used <==> i in seedUsed || i < k + 1
    ensures forall i: nat :: i in used + {k} <==> i in seedUsed || i < k + 1
  {
  }

  /** The seeding loop `for(auto& [origin, origin_idx] : selection)`: seed j becomes
      cluster j with its own centroid, and its index is marked used. */
  method SeedClusters(selection: seq<(Point, nat)>, d: nat)
    returns (clusters: seq<seq<Point>>, centroids: seq<Option<Point>>, used: set<nat>)
    requires forall j :: 0 <= j < |selection| ==> |selection[j].0| == d
    ensures State(clusters, centroids) == SeedState(selection, d) && used == SeedIndexes(selection)
  {
    clusters, centroids, used := [], [], {};
    for j := 0 to |selection|
      invariant clusters == SeedState(selection[..j], d).clusters
      invariant centroids == SeedState(selection[..j], d).centroids
      invariant used == SeedIndexes(selection[..j])
    {
      var (origin, originIdx) := selection[j];
      assert selection[..j + 1][..j] == selection[..j];
      clusters := clusters + [[origin]];
      centroids := centroids + [CentroidOf([origin], d)];
      used := used + {originIdx};
    }
    assert selection[..|selection|] == selection;
  }

  /** `create_k_means_clusters_from_selection(cont, selection)`: the error for an empty
      selection; otherwise seed j becomes cluster j, and every sample whose index no seed
      used joins its closest cluster, in ascending index order, with only that cluster's
      centroid recomputed. */
  method CreateKMeansClustersFromSelection(cont: seq<Point>, selection: seq<(Point, nat)>, d: nat, skipLastN: nat)
    returns (r: Result<State>)
    requires Dimension(cont, d) && skipLastN <= d
    requires forall j :: 0 <= j < |selection| ==> |selection[j].0| == d
    ensures r == CreateFromSelection(cont, selection, d, skipLastN)
  {
    if |selection| == 0 {
      return Err("Invalid cluster initialization");
    }
    var clusters, centroids, used := SeedClusters(selection, d);
    ghost var seeds := State(clusters, centroids);
    ghost var seedUsed := used;
    for sampleIdx: nat := 0 to |cont|
      invariant State(clusters, centroids) == AssignPrefix(cont, seedUsed, seeds, sampleIdx, d, skipLastN)
      invariant forall i: nat :: i in used <==> i in seedUsed || i < sampleIdx
    {
      MarkUsed(used, seedUsed, sampleIdx);
      AssignPrefixStep(cont, seedUsed, seeds, sampleIdx, d, skipLastN);
      if sampleIdx !in used {
        used := used + {sampleIdx};
        clusters, centroids := AssignSample(clusters, centroids, cont[sampleIdx], d, skipLastN);
      }
    }
    r := Ok(State(clusters, centroids));
  }

  lemma AssignPrefixStep(cont: seq<Point>, used: set<nat>, st: State, n: nat, d: nat, skipLastN: nat)
    requires n < |cont| && Dimension(cont, d) && Seeded(st, d) && skipLastN <= d
    ensures AssignPrefix(cont, used, st, n + 1, d, skipLastN)
            == if n in used then AssignPrefix(cont, used, st, n, d, skipLastN)
               else Assign(AssignPrefix(cont, used, st, n, d, skipLastN), cont[n], d, skipLastN)
  {
  }

  /** The body of the assignment loop for one unused sample: it joins its closest cluster,
      and only that cluster's centroid is recomputed. */
  method AssignSample(clusters: seq<seq<Point>>, centroids: seq<Option<Point>>, sample: Point, d: nat, skipLastN: nat)
    returns (clusters': seq<seq<Point>>, centroids': seq<Option<Point>>)
    requires Seeded(State(clusters, centroids), d) && |sample| == d && skipLastN <= d
    ensures State(clusters', centroids') == Assign(State(clusters, centroids), sample, d, skipLastN)
  {
    var closest := ClosestCluster(Centers(State(clusters, centroids), d), sample, skipLastN);
    clusters' := clusters[closest := clusters[closest] + [sample]];
    centroids' := centroids[closest := CentroidOf(clusters'[closest], d)];
  }

  // ---------------------------------------------------------------------------------------
  // rebalance_k_means_clusters
  // ---------------------------------------------------------------------------------------

  const NotInAnyCluster := "Sample in container provided does not exist in any of the clusters"

  /** `find_if` over the clusters from cluster c on, with `find` inside: the first cluster
      holding the sample, and the sample's first position in it. */
  function FindSampleFrom(cs: seq<seq<Point>>, sample: Point, c: nat): (r: Option<(nat, nat)>)
    requires c <= |cs|
    ensures r.Some? ==> (c <= r.value.0 < |cs| && r.value.1 < |cs[r.value.0]|
      && cs[r.value.0][r.value.1] == sample)
    decreases |cs| - c
  {
    if c == |cs| then None
    else if sample in cs[c] then Some((c, FirstPosition(cs[c], sample, 0)))
    else FindSampleFrom(cs, sample, c + 1)
  }

  /** The search finds nothing exactly when no cluster from c on holds the sample, and what
      it finds is the first occurrence. */
  lemma {:induction false} FindSampleFromFirst(cs: seq<seq<Point>>, sample: Point, c: nat)
    requires c <= |cs|
    ensures FindSampleFrom(cs, sample, c).None? <==> forall c' :: c <= c' < |cs| ==> sample !in cs[c']
    ensures FindSampleFrom(cs, sample, c).Some? ==> var (own, pos) := FindSampleFrom(cs, sample, c).value;
      (forall c' :: c <= c' < own ==> sample !in cs[c'])
      && (forall p :: 0 <= p < pos ==> cs[own][p] != sample)
    decreases |cs| - c
  {
    if c < |cs| && sample !in cs[c] {
      FindSampleFromFirst(cs, sample, c + 1);
    }
  }

  /** The search from the first cluster. */
  function FindSample(cs: seq<seq<Point>>, sample: Point): (r: Option<(nat, nat)>)
    ensures r.Some? ==> (r.value.0 < |cs| && r.value.1 < |cs[r.value.0]| && cs[r.value.0][r.value.1] == sample)
  {
    FindSampleFrom(cs, sample, 0)
  }

  /** No cluster holds the sample exactly when the search fails; otherwise the search
      stops at the first cluster holding it, at the sample's first position there. */
  lemma FindSampleFirst(cs: seq<seq<Point>>, sample: Point)
    ensures FindSample(cs, sample).None? <==> forall c :: 0 <= c < |cs| ==> sample !in cs[c]
    ensures FindSample(cs, sample).Some? ==> var (own, pos) := FindSample(cs, sample).value;
      (forall c :: 0 <= c < own ==> sample !in cs[c])
      && (forall p :: 0 <= p < pos ==> cs[own][p] != sample)
  {
    FindSampleFromFirst(cs, sample, 0);
  }

  /** `find` from position p on: the first position of x at or after p. */
  function FirstPosition(s: seq<Point>, x: Point, p: nat): (q: nat)
    requires p <= |s| && exists i :: p <= i < |s| && s[i] == x
    ensures p <= q < |s| && s[q] == x && forall i :: p <= i < q ==> s[i] != x
    decreases |s| - p
  {
    if s[p] == x then p else FirstPosition(s, x, p + 1)
  }

  /** The measure a pass compares clusters by: a cluster's average distance to the sample
      (0 for an empty cluster). In a well-formed state every point has the sample's
      dimension; elsewhere the measure is 0. */
  function AverageMeasure(cluster: seq<Point>, sample: Point): real
  {
    if Dimension(cluster, |sample|) then AverageDistance(cluster, sample) else 0.0
  }

  /** The nearest of clusters 0 .. n-1 by the measure, scanning upwards: a later cluster
      replaces the one held only when it is strictly nearer. */
  function NearestUpTo(cs: seq<seq<Point>>, sample: Point, n: nat, avg: (seq<Point>, Point) -> real): (i: nat)
    requires 0 < n <= |cs|
    ensures i < n
    decreases n
  {
    if n == 1 then 0
    else
      var prev := NearestUpTo(cs, sample, n - 1, avg);
      if avg(cs[n - 1], sample) < avg(cs[prev], sample) then n - 1 else prev
  }

  function Nearest(cs: seq<seq<Point>>, sample: Point, avg: (seq<Point>, Point) -> real): (i: nat)
    requires |cs| > 0
    ensures i < |cs|
  {
    NearestUpTo(cs, sample, |cs|, avg)
  }

  /** Among clusters 0 .. n-1 none is nearer than the scan's result, and every earlier one is
      farther. */
  lemma {:induction false} NearestUpToMinimal(cs: seq<seq<Point>>, sample: Point, n: nat, avg: (seq<Point>, Point) -> real)
    requires 0 < n <= |cs|
    ensures var i := NearestUpTo(cs, sample, n, avg);
      (forall c :: 0 <= c < n ==> avg(cs[i], sample) <= avg(cs[c], sample))
      && (forall c :: 0 <= c < i ==> avg(cs[c], sample) > avg(cs[i], sample))
    decreases n
  {
    if n > 1 {
      NearestUpToMinimal(cs, sample, n - 1, avg);
    }
  }

  /** The nearest cluster: no cluster is nearer, and every earlier one is farther. */
  lemma NearestMinimal(cs: seq<seq<Point>>, sample: Point, avg: (seq<Point>, Point) -> real)
    requires |cs| > 0
    ensures var i := Nearest(cs, sample, avg);
      (forall c :: 0 <= c < |cs| ==> avg(cs[i], sample) <= avg(cs[c], sample))
      && (forall c :: 0 <= c < i ==> avg(cs[c], sample) > avg(cs[i], sample))
  {
    NearestUpToMinimal(cs, sample, |cs|, avg);
  }

  /** `erase` at position p. */
  function RemoveAt(s: seq<Point>, p: nat): (r: seq<Point>)
    requires p < |s|
    ensures |r| == |s| - 1
    ensures forall k :: 0 <= k < |r| ==> r[k] == s[if k < p then k else k + 1]
  {
    s[..p] + s[p + 1..]
  }

  lemma RemoveAtMultiset(s: seq<Point>, p: nat)
    requires p < |s|
    ensures multiset(s) == multiset(RemoveAt(s, p)) + multiset{s[p]}
  {
    assert s == s[..p] + [s[p]] + s[p + 1..];
  }

  /** The point at position `pos` of cluster `own` erased there and appended to cluster
      `best`. */
  function MoveClusters(cs: seq<seq<Point>>, own: nat, pos: nat, best: nat): (r: seq<seq<Point>>)
    requires own < |cs| && pos < |cs[own]| && best < |cs|
    ensures |r| == |cs|
    ensures forall c :: 0 <= c < |cs| && c != own && c != best ==> r[c] == cs[c]
    ensures forall d: nat :: AllDimension(cs, d) ==> AllDimension(r, d)
  {
    cs[own := RemoveAt(cs[own], pos)][best := cs[best] + [cs[own][pos]]]
  }

  /** Between two different clusters a move keeps the multiset of points. */
  lemma MoveKeeps(cs: seq<seq<Point>>, own: nat, pos: nat, best: nat)
    requires own < |cs| && pos < |cs[own]| && best < |cs| && own != best
    ensures Elements(MoveClusters(cs, own, pos, best)) == Elements(cs)
  {
    var p := cs[own][pos];
    var left, joined := RemoveAt(cs[own], pos), cs[best] + [p];
    var cs1 := cs[own := left];
    ElementsUpdate(cs, own, left);
    ElementsUpdate(cs1, best, joined);
    assert cs1[best] == cs[best];
    RemoveAtMultiset(cs[own], pos);
    assert multiset(joined) == multiset(cs[best]) + multiset{p};
    MultisetCancel(Elements(cs1[best := joined]), Elements(cs1) + multiset{p}, multiset(cs[best]));
    MultisetCancel(Elements(cs1) + multiset{p}, Elements(cs), multiset(left));
    assert MoveClusters(cs, own, pos, best) == cs1[best := joined];
  }

  lemma MultisetCancel(a: multiset<Point>, b: multiset<Point>, x: multiset<Point>)
    requires a + x == b + x
    ensures a == b
  {
    forall o ensures a[o] == b[o] {
      assert (a + x)[o] == (b + x)[o];
    }
  }

  /** The sample's own cluster is one of the clusters nearest to it. */
  predicate Settled(cs: seq<seq<Point>>, sample: Point, avg: (seq<Point>, Point) -> real)
  {
    match FindSample(cs, sample)
    case None => false
    case Some((own, _)) => forall c :: 0 <= c < |cs| ==> avg(cs[own], sample) <= avg(cs[c], sample)
  }

  /** One sample's turn in a pass, on the clusters: the error when no cluster holds it; a
      move, by erasing it from its cluster and appending it to the nearest cluster, when that
      cluster's measure is strictly smaller; else nothing. With the new clusters comes the
      set of clusters touched, whose centroids are recomputed. */
  function Step(cs: seq<seq<Point>>, sample: Point, avg: (seq<Point>, Point) -> real): (r: Result<(seq<seq<Point>>, set<nat>)>)
    ensures r.Err? ==> r.error == NotInAnyCluster
    ensures r.Ok? ==> |r.value.0| == |cs|
  {
    match FindSample(cs, sample)
    case None => Err(NotInAnyCluster)
    case Some((own, pos)) =>
      var best := Nearest(cs, sample, avg);
      if avg(cs[own], sample) > avg(cs[best], sample) then
        Ok((MoveClusters(cs, own, pos, best), {own, best}))
      else
        Ok((cs, {}))
  }

  /** A turn fails exactly when no cluster holds the sample. */
  lemma StepErr(cs: seq<seq<Point>>, sample: Point, avg: (seq<Point>, Point) -> real)
    ensures Step(cs, sample, avg).Err? <==> sample !in Elements(cs)
  {
    InElements(cs, sample);
    FindSampleFirst(cs, sample);
  }

  /** A turn keeps the points. */
  lemma StepKeeps(cs: seq<seq<Point>>, sample: Point, avg: (seq<Point>, Point) -> real)
    requires Step(cs, sample, avg).Ok?
    ensures Elements(Step(cs, sample, avg).value.0) == Elements(cs)
  {
    var (own, pos) := FindSample(cs, sample).value;
    var best := Nearest(cs, sample, avg);
    if avg(cs[own], sample) > avg(cs[best], sample) {
      MoveKeeps(cs, own, pos, best);
    }
  }

  /** A turn keeps every point's dimension. */
  lemma StepDimension(cs: seq<seq<Point>>, sample: Point, avg: (seq<Point>, Point) -> real, d: nat)
    requires Step(cs, sample, avg).Ok? && AllDimension(cs, d)
    ensures AllDimension(Step(cs, sample, avg).value.0, d)
  {
    var (own, pos) := FindSample(cs, sample).value;
    var best := Nearest(cs, sample, avg);
    if avg(cs[own], sample) > avg(cs[best], sample) {
      assert AllDimension(MoveClusters(cs, own, pos, best), d);
    }
  }

  /** A turn changes only the clusters it reports as touched. */
  lemma StepTouched(cs: seq<seq<Point>>, sample: Point, avg: (seq<Point>, Point) -> real)
    requires Step(cs, sample, avg).Ok?
    ensures forall c :: c in Step(cs, sample, avg).value.1 ==> c < |cs|
    ensures forall c :: 0 <= c < |cs| && c !in Step(cs, sample, avg).value.1 ==> Step(cs, sample, avg).value.0[c] == cs[c]
  {
  }

  /** A turn that touches nothing leaves the clusters and finds its sample settled. */
  lemma StepStill(cs: seq<seq<Point>>, sample: Point, avg: (seq<Point>, Point) -> real)
    requires Step(cs, sample, avg).Ok? && Step(cs, sample, avg).value.1 == {}
    ensures Step(cs, sample, avg).value.0 == cs && Settled(cs, sample, avg)
  {
    var (own, pos) := FindSample(cs, sample).value;
    NearestMinimal(cs, sample, avg);
    assert !(avg(cs[own], sample) > avg(cs[Nearest(cs, sample, avg)], sample));
  }

  /** A move takes the sample out of its own cluster into a different one whose measure is
      strictly smaller, and touches those two clusters alone. */
  lemma StepMoved(cs: seq<seq<Point>>, sample: Point, avg: (seq<Point>, Point) -> real)
    requires Step(cs, sample, avg).Ok? && Step(cs, sample, avg).value.1 != {}
    ensures exists own, best :: (0 <= own < |cs| && 0 <= best < |cs| && own != best
      && Step(cs, sample, avg).value.1 == {own, best} && sample in cs[own]
      && (forall c :: 0 <= c < own ==> sample !in cs[c])
      && avg(cs[best], sample) < avg(cs[own], sample))
  {
    var (own, pos) := FindSample(cs, sample).value;
    FindSampleFirst(cs, sample);
    assert sample in cs[own];
  }

  /** The first n turns of one pass over the samples, and the clusters they touched. */
  function PassPrefix(cont: seq<Point>, cs: seq<seq<Point>>, n: nat, avg: (seq<Point>, Point) -> real): (r: Result<(seq<seq<Point>>, set<nat>)>)
    requires n <= |cont|
    ensures r.Err? ==> r.error == NotInAnyCluster
    ensures r.Ok? ==> |r.value.0| == |cs|
    decreases n
  {
    if n == 0 then Ok((cs, {}))
    else
      match PassPrefix(cont, cs, n - 1, avg)
      case Err(e) => Err(e)
      case Ok((cs1, touched1)) =>
        match Step(cs1, cont[n - 1], avg)
        case Err(e) => Err(e)
        case Ok((cs2, touched2)) => Ok((cs2, touched1 + touched2))
  }

  /** A pass keeps the points. */
  lemma {:induction false} PassPrefixKeeps(cont: seq<Point>, cs: seq<seq<Point>>, n: nat, avg: (seq<Point>, Point) -> real)
    requires n <= |cont|
    ensures PassPrefix(cont, cs, n, avg).Ok? ==> Elements(PassPrefix(cont, cs, n, avg).value.0) == Elements(cs)
    decreases n
  {
    if n > 0 && PassPrefix(cont, cs, n, avg).Ok? {
      PassPrefixKeeps(cont, cs, n - 1, avg);
      StepKeeps(PassPrefix(cont, cs, n - 1, avg).value.0, cont[n - 1], avg);
    }
  }

  /** A pass keeps every point's dimension. */
  lemma {:induction false} PassPrefixDimension(cont: seq<Point>, cs: seq<seq<Point>>, n: nat, avg: (seq<Point>, Point) -> real, d: nat)
    requires n <= |cont| && AllDimension(cs, d)
    ensures PassPrefix(cont, cs, n, avg).Ok? ==> AllDimension(PassPrefix(cont, cs, n, avg).value.0, d)
    decreases n
  {
    if n > 0 && PassPrefix(cont, cs, n, avg).Ok? {
      PassPrefixDimension(cont, cs, n - 1, avg, d);
      StepDimension(PassPrefix(cont, cs, n - 1, avg).value.0, cont[n - 1], avg, d);
    }
  }

  /** A pass fails exactly when some sample is held by no cluster. */
  lemma {:induction false} PassPrefixFails(cont: seq<Point>, cs: seq<seq<Point>>, n: nat, avg: (seq<Point>, Point) -> real)
    requires n <= |cont|
    ensures PassPrefix(cont, cs, n, avg).Err? <==> exists i :: 0 <= i < n && cont[i] !in Elements(cs)
    decreases n
  {
    if n > 0 {
      PassPrefixFails(cont, cs, n - 1, avg);
      var prev := PassPrefix(cont, cs, n - 1, avg);
      if prev.Ok? {
        PassPrefixKeeps(cont, cs, n - 1, avg);
        StepErr(prev.value.0, cont[n - 1], avg);
      }
    }
  }

  /** A pass changes only the clusters it reports as touched. */
  lemma {:induction false} PassPrefixTouched(cont: seq<Point>, cs: seq<seq<Point>>, n: nat, avg: (seq<Point>, Point) -> real)
    requires n <= |cont|
    ensures PassPrefix(cont, cs, n, avg).Ok? ==>
      forall c :: c in PassPrefix(cont, cs, n, avg).value.1 ==> c < |cs|
    ensures PassPrefix(cont, cs, n, avg).Ok? ==>
      forall c :: 0 <= c < |cs| && c !in PassPrefix(cont, cs, n, avg).value.1 ==>
        PassPrefix(cont, cs, n, avg).value.0[c] == cs[c]
    decreases n
  {
    if n > 0 && PassPrefix(cont, cs, n, avg).Ok? {
      PassPrefixTouched(cont, cs, n - 1, avg);
      StepTouched(PassPrefix(cont, cs, n - 1, avg).value.0, cont[n - 1], avg);
    }
  }

  /** A pass that touches nothing leaves the clusters as they were, with every sample
      settled. */
  lemma {:induction false} PassPrefixStill(cont: seq<Point>, cs: seq<seq<Point>>, n: nat, avg: (seq<Point>, Point) -> real)
    requires n <= |cont| && PassPrefix(cont, cs, n, avg).Ok? && PassPrefix(cont, cs, n, avg).value.1 == {}
    ensures PassPrefix(cont, cs, n, avg).value.0 == cs
    ensures forall i :: 0 <= i < n ==> Settled(cs, cont[i], avg)
    decreases n
  {
    if n > 0 {
      PassPrefixStill(cont, cs, n - 1, avg);
      StepStill(cs, cont[n - 1], avg);
    }
  }

  /** Once a turn fails the pass ends with that error. */
  lemma {:induction false} PassPrefixErr(cont: seq<Point>, cs: seq<seq<Point>>, n: nat, m: nat, avg: (seq<Point>, Point) -> real)
    requires n <= m <= |cont| && PassPrefix(cont, cs, n, avg).Err?
    ensures PassPrefix(cont, cs, m, avg) == Err(NotInAnyCluster)
    decreases m
  {
    if m > n {
      PassPrefixErr(cont, cs, n, m - 1, avg);
    }
  }

  /** The centroid map after a pass: the touched clusters' centroids are recomputed from
      their final points, the others are kept. */
  function Recentred(centroids: seq<Option<Point>>, cs: seq<seq<Point>>, touched: set<nat>, d: nat): (r: seq<Option<Point>>)
    requires |centroids| == |cs| && AllDimension(cs, d)
    ensures |r| == |cs|
    ensures forall c :: 0 <= c < |cs| ==> r[c] == if c in touched then CentroidOf(cs[c], d) else centroids[c]
  {
    seq(|cs|, c requires 0 <= c < |cs| => if c in touched then CentroidOf(cs[c], d) else centroids[c])
  }

  /** Applying a move to the clusters and recomputing the centroids of its two clusters gives
      the centroid map of the pass with those clusters added to the touched ones. */
  lemma RecentredMove(base: seq<Option<Point>>, cs: seq<seq<Point>>, touched: set<nat>,
                      own: nat, pos: nat, best: nat, d: nat)
    requires |base| == |cs| && AllDimension(cs, d)
    requires own < |cs| && pos < |cs[own]| && best < |cs| && own != best
    ensures var cs' := MoveClusters(cs, own, pos, best);
      Recentred(base, cs, touched, d)[own := CentroidOf(cs'[own], d)][best := CentroidOf(cs'[best], d)]
        == Recentred(base, cs', touched + {own, best}, d)
  {
    MoveKeeps(cs, own, pos, best);
  }

  /** One more turn extends a pass that has not failed. */
  lemma PassPrefixNext(cont: seq<Point>, cs: seq<seq<Point>>, i: nat, avg: (seq<Point>, Point) -> real,
                       cs1: seq<seq<Point>>, touched1: set<nat>)
    requires i < |cont| && PassPrefix(cont, cs, i, avg) == Ok((cs1, touched1))
    ensures Step(cs1, cont[i], avg).Err? ==> PassPrefix(cont, cs, i + 1, avg) == Err(NotInAnyCluster)
    ensures Step(cs1, cont[i], avg).Ok? ==>
      PassPrefix(cont, cs, i + 1, avg) == Ok((Step(cs1, cont[i], avg).value.0, touched1 + Step(cs1, cont[i], avg).value.1))
  {
  }

  /** A turn of a sample found at position `pos` of cluster `own`, with `best` the nearest
      cluster: the pass moves it there when that is strictly better, else keeps the clusters. */
  lemma PassTurn(cont: seq<Point>, cs: seq<seq<Point>>, i: nat, avg: (seq<Point>, Point) -> real,
                 cs1: seq<seq<Point>>, touched1: set<nat>, own: nat, pos: nat, best: nat)
    requires i < |cont| && PassPrefix(cont, cs, i, avg) == Ok((cs1, touched1))
    requires FindSample(cs1, cont[i]) == Some((own, pos)) && best == Nearest(cs1, cont[i], avg)
    ensures avg(cs1[own], cont[i]) > avg(cs1[best], cont[i]) ==>
      own != best && PassPrefix(cont, cs, i + 1, avg) == Ok((MoveClusters(cs1, own, pos, best), touched1 + {own, best}))
    ensures !(avg(cs1[own], cont[i]) > avg(cs1[best], cont[i])) ==> PassPrefix(cont, cs, i + 1, avg) == Ok((cs1, touched1))
  {
    PassPrefixNext(cont, cs, i, avg, cs1, touched1);
    if !(avg(cs1[own], cont[i]) > avg(cs1[best], cont[i])) {
      assert touched1 + {} == touched1;
    }
  }

  /** One pass of the `for(auto& sample : cont)` loop: the new clusters and centroids, and
      whether a sample moved. */
  function PassOf(cont: seq<Point>, st: State, d: nat, avg: (seq<Point>, Point) -> real): (r: Result<(State, bool)>)
    requires WellFormed(st, d)
    ensures r.Ok? ==> WellFormed(r.value.0, d) && |r.value.0.clusters| == |st.clusters|
  {
    PassPrefixDimension(cont, st.clusters, |cont|, avg, d);
    match PassPrefix(cont, st.clusters, |cont|, avg)
    case Err(e) => Err(e)
    case Ok((cs, touched)) => Ok((State(cs, Recentred(st.centroids, cs, touched, d)), touched != {}))
  }

  /** A pass keeps the points and keeps consistent centroids consistent, fails exactly when a
      sample is held by no cluster, and a pass without a move changes nothing and finds
      every sample settled. */
  lemma PassFacts(cont: seq<Point>, st: State, d: nat, avg: (seq<Point>, Point) -> real)
    requires WellFormed(st, d)
    ensures PassOf(cont, st, d, avg).Err? <==> exists i :: 0 <= i < |cont| && cont[i] !in Elements(st.clusters)
    ensures PassOf(cont, st, d, avg).Ok? ==> var (st', moved) := PassOf(cont, st, d, avg).value;
      Elements(st'.clusters) == Elements(st.clusters)
      && (Consistent(st, d) ==> Consistent(st', d))
      && (!moved ==> st' == st && forall i :: 0 <= i < |cont| ==> Settled(st.clusters, cont[i], avg))
  {
    PassPrefixKeeps(cont, st.clusters, |cont|, avg);
    PassPrefixFails(cont, st.clusters, |cont|, avg);
    PassPrefixTouched(cont, st.clusters, |cont|, avg);
    var pass := PassPrefix(cont, st.clusters, |cont|, avg);
    if pass.Ok? {
      var (cs, touched) := pass.value;
      if touched == {} {
        PassPrefixStill(cont, st.clusters, |cont|, avg);
        assert Recentred(st.centroids, cs, touched, d) == st.centroids;
      }
    }
  }

  /** `rebalance_k_means_clusters` with at most `fuel` passes: the final state and whether
      the last pass made no move. */
  function Rebalanced(cont: seq<Point>, st: State, d: nat, fuel: nat, avg: (seq<Point>, Point) -> real): (r: Result<(State, bool)>)
    requires WellFormed(st, d)
    ensures r.Ok? ==> WellFormed(r.value.0, d) && |r.value.0.clusters| == |st.clusters|
    decreases fuel
  {
    if fuel == 0 then Ok((st, false))
    else
      match PassOf(cont, st, d, avg)
      case Err(e) => Err(e)
      case Ok((st', moved)) => if moved then Rebalanced(cont, st', d, fuel - 1, avg) else Ok((st', true))
  }

  /** Rebalancing keeps the multiset of points and the centroids' consistency, fails exactly
      when a sample is held by no cluster, and on convergence every sample's own cluster is
      one of the nearest to it by the measure. */
  lemma {:induction false} RebalancedFacts(cont: seq<Point>, st: State, d: nat, fuel: nat, avg: (seq<Point>, Point) -> real)
    requires WellFormed(st, d) && fuel > 0
    ensures Rebalanced(cont, st, d, fuel, avg).Err? <==>
      exists i :: 0 <= i < |cont| && cont[i] !in Elements(st.clusters)
    ensures Rebalanced(cont, st, d, fuel, avg).Ok? ==>
      Elements(Rebalanced(cont, st, d, fuel, avg).value.0.clusters) == Elements(st.clusters)
      && (Consistent(st, d) ==> Consistent(Rebalanced(cont, st, d, fuel, avg).value.0, d))
    ensures Rebalanced(cont, st, d, fuel, avg).Ok? && Rebalanced(cont, st, d, fuel, avg).value.1 ==>
      forall i :: 0 <= i < |cont| ==> Settled(Rebalanced(cont, st, d, fuel, avg).value.0.clusters, cont[i], avg)
    decreases fuel
  {
    PassFacts(cont, st, d, avg);
    var pass := PassOf(cont, st, d, avg);
    var r := Rebalanced(cont, st, d, fuel, avg);
    if pass.Err? {
      assert r.Err?;
    } else if !pass.value.1 {
      assert r == Ok((pass.value.0, true));
      assert pass.value.0 == st;
    } else if fuel == 1 {
      assert r == Ok((pass.value.0, false));
    } else {
      assert r == Rebalanced(cont, pass.value.0, d, fuel - 1, avg);
      RebalancedFacts(cont, pass.value.0, d, fuel - 1, avg);
    }
  }

  /** The loop over clusters 1 .. k-1 for the nearest by average distance. */
  method NearestCluster(cs: seq<seq<Point>>, sample: Point) returns (nearest: nat, minDist: real)
    requires |cs| > 0 && AllDimension(cs, |sample|)
    ensures nearest == Nearest(cs, sample, AverageMeasure) && minDist == AverageMeasure(cs[nearest], sample)
  {
    nearest := 0;
    minDist := AverageDistanceEuclidean(cs[0], sample);
    for c := 1 to |cs|
      invariant nearest == NearestUpTo(cs, sample, c, AverageMeasure)
      invariant minDist == AverageMeasure(cs[nearest], sample)
    {
      var temp := AverageDistanceEuclidean(cs[c], sample);
      if temp < minDist {
        minDist := temp;
        nearest := c;
      }
    }
  }

  /** The loop state of a pass after its first i turns. */
  ghost predicate PassAt(cont: seq<Point>, st: State, d: nat, i: nat, clusters: seq<seq<Point>>,
                         centroids: seq<Option<Point>>, wasMoved: bool, touched: set<nat>)
    requires i <= |cont| && WellFormed(st, d)
  {
    PassPrefix(cont, st.clusters, i, AverageMeasure) == Ok((clusters, touched))
    && AllDimension(clusters, d)
    && centroids == Recentred(st.centroids, clusters, touched, d)
    && wasMoved == (touched != {})
  }

  /** The body of the `for(auto& sample : cont)` loop for sample i: the error when no cluster
      holds it, else the loop state after its turn. */
  method SampleTurn(cont: seq<Point>, st: State, d: nat, i: nat, clusters: seq<seq<Point>>,
                    centroids: seq<Option<Point>>, wasMoved: bool, ghost touched: set<nat>)
    returns (found: bool, clusters': seq<seq<Point>>, centroids': seq<Option<Point>>, wasMoved': bool, ghost touched': set<nat>)
    requires i < |cont| && Dimension(cont, d) && WellFormed(st, d)
    requires PassAt(cont, st, d, i, clusters, centroids, wasMoved, touched)
    ensures found ==> PassAt(cont, st, d, i + 1, clusters', centroids', wasMoved', touched')
    ensures !found ==> PassPrefix(cont, st.clusters, i + 1, AverageMeasure).Err?
  {
    clusters', centroids', wasMoved', touched' := clusters, centroids, wasMoved, touched;
    var sample := cont[i];
    var position := FindSample(clusters, sample);
    if position.None? {
      PassPrefixNext(cont, st.clusters, i, AverageMeasure, clusters, touched);
      return false, clusters', centroids', wasMoved', touched';
    }
    found := true;
    var (own, pos) := position.value;
    var best, minDist := NearestCluster(clusters, sample);
    var sampleDist := AverageDistanceEuclidean(clusters[own], sample);
    assert sampleDist == AverageMeasure(clusters[own], sample);
    PassTurn(cont, st.clusters, i, AverageMeasure, clusters, touched, own, pos, best);
    if sampleDist > minDist {
      PassPrefixDimension(cont, st.clusters, i + 1, AverageMeasure, d);
      wasMoved' := true;
      RecentredMove(st.centroids, clusters, touched, own, pos, best, d);
      touched' := touched + {own, best};
      clusters' := MoveClusters(clusters, own, pos, best);
      centroids' := centroids[own := CentroidOf(clusters'[own], d)][best := CentroidOf(clusters'[best], d)];
    }
  }

  /** One pass of the `for(auto& sample : cont)` loop, updating the clusters and the two
      centroids of every move in place. */
  method Pass(cont: seq<Point>, st: State, d: nat) returns (r: Result<(State, bool)>)
    requires Dimension(cont, d) && WellFormed(st, d)
    ensures r == PassOf(cont, st, d, AverageMeasure)
  {
    var clusters, centroids := st.clusters, st.centroids;
    var wasMoved := false;
    ghost var touched: set<nat> := {};
    for i := 0 to |cont|
      invariant PassAt(cont, st, d, i, clusters, centroids, wasMoved, touched)
    {
      var found;
      found, clusters, centroids, wasMoved, touched := SampleTurn(cont, st, d, i, clusters, centroids, wasMoved, touched);
      if !found {
        PassPrefixErr(cont, st.clusters, i + 1, |cont|, AverageMeasure);
        return Err(NotInAnyCluster);
      }
    }
    r := Ok((State(clusters, centroids), wasMoved));
  }

  /** `rebalance_k_means_clusters(cont, clusters, centroids)`: passes repeat while the last
      one moved a sample, here at most `fuel` times; `converged` says the last pass moved
      nothing. */
  method RebalanceKMeansClusters(cont: seq<Point>, st: State, d: nat, fuel: nat)
    returns (r: Result<State>, converged: bool)
    requires Dimension(cont, d) && WellFormed(st, d)
    ensures var expected := Rebalanced(cont, st, d, fuel, AverageMeasure);
      (expected.Err? ==> r.Err? && r.error == expected.error)
      && (expected.Ok? ==> r == Ok(expected.value.0) && converged == expected.value.1)
  {
    var current := st;
    var wasMoved := true;
    var remaining := fuel;
    converged := false;
    while wasMoved && remaining > 0
      invariant WellFormed(current, d)
      invariant wasMoved ==> Rebalanced(cont, st, d, fuel, AverageMeasure) == Rebalanced(cont, current, d, remaining, AverageMeasure)
      invariant !wasMoved ==> Rebalanced(cont, st, d, fuel, AverageMeasure) == Ok((current, true)) && converged
      invariant wasMoved ==> !converged
      decreases remaining
    {
      var pass := Pass(cont, current, d);
      if pass.Err? {
        return Err(pass.error), false;
      }
      current, wasMoved := pass.value.0, pass.value.1;
      converged := !wasMoved;
      remaining := remaining - 1;
    }
    r := Ok(current);
  }
}
