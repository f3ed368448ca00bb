# dmtk core in Dafny

This project models the deterministic core of **dmtk**, a header-only C++ data-mining
toolkit, and proves properties of that model. It covers:

- the hidden Markov model's path likelihood and its table machinery: log2 rewrite,
  uniform start table, linear/log scale, parameter validation;
- agglomerative hierarchical clustering, with its pair-keyed metric cache and
  first-minimum merge selection;
- the cluster linkage metrics and the Euclidean distances they use, with and without
  trailing labels;
- k-means seeding and rebalancing, and the k-nearest-neighbour vote;
- the argmin/argmax optimiser and the aggregates (min, max, sum, avg, centroid,
  distance sums);
- the unordered-pair cache and the proximity matrix;
- min-max normalisation, and the element-wise min/max, add and div updates;
- simple linear regression, its residual sum of squares and its predictions;
- delimited-text file-type detection, row writing and row/line loading;
- column views of elements and containers;
- graph nodes with shallow equality and hashing, and the depth-first visitor over a table
  of shared nodes, cycles included.

Modelling conventions:

- **Numbers:**
  - A numeric tuple or point is a `seq<real>`.
  - A tuple that mixes numbers and labels is a `seq<Atom>`, where an `Atom` is `Num(v)` or
    `Text(s)`.
  - `sqrt` and `log2` are fixed but unspecified functions (`Numeric.Sqrt`, `Numeric.Log2`).
  - `numeric_limits<fp_type>::max()` and `::min()` are the binary64 constants
    `Numeric.FpMax` and `Numeric.FpMinPositive`.
- **Iteration order and errors:**
  - Every `unordered_map` whose iteration order matters becomes an explicit sequence:
    - hierarchical clusters keep insertion order, and a merged cluster goes at the end;
    - k-NN counters are in first-tally order;
    - k-means clusters are in index order.
  - A thrown `std::runtime_error` or a failing `BOOST_ASSERT_MSG` becomes an `Err` result
    carrying the source's message.
- **State:**
  - Objects whose fields the source updates in place are classes: `HmmTables`,
    `MetricHandler`, `PairwiseCache`, `ProximityMatrix`, `Table`, `ViewContainer` and
    `OutStream`.
  - In-place array algorithms keep their `array`: `normalize`, `find_min_max_vector`,
    container `element_div`, and the body of the container `element_add` as written
    (`Operations.ElementAddContainerAsWritten`). The corrected container `element_add`
    (`Operations.ElementAddContainer`) returns a new sequence instead (the overload as
    written cannot be instantiated; see Findings).
  - Each loop in the source is a method proved against a specification function, and the
    source's promises are proved about that function as lemmas.

Where the source and its accompanying prose disagree, the model follows the code:

- The HMM log2 transforms rewrite the caller's tables in place rather than copies of them.
- A missing emission or transition key is read through `operator[]` and gives probability 0.
  It is not an "unknown symbol" error.
- The start factor is 1 over the number of distinct states on the path.

## Model

| member | source | states |
|---|---|---|
| Element.SelectAtomTag | include/dmtk/element/element.hpp:70-82 | an atom gets the arithmetic tag exactly when it is a number, and the skip tag exactly when it is to be skipped |
| Element.Label | include/dmtk/element/element.hpp:89-123 | the label of a tuple or of a non-empty container is its last component: the record is its front followed by the label |
| Numeric.SquareNonNegative | include/dmtk/element/function/euclidean.hpp:27-30 | a squared term is never negative |
| Euclidean.SquaredSumNonNegative | include/dmtk/element/function/euclidean.hpp:27-30 | a partial sum of squared differences is never negative |
| Euclidean.SquaredSumSymmetric | include/dmtk/element/function/euclidean.hpp:27-30 | swapping the two arguments does not change the sum |
| Euclidean.SquaredSumZeroIff | include/dmtk/element/function/euclidean.hpp:27-30 | the sum over the first n components is 0 exactly when those components agree |
| Euclidean.TupleDistanceSquared | include/dmtk/element/function/euclidean.hpp:56-59 | the squared distance is at least 0, and 0 exactly when the tuples are equal |
| Euclidean.TupleDistanceSquaredSymmetric | include/dmtk/element/function/euclidean.hpp:27-30 | the squared distance is symmetric |
| Euclidean.TupleDistanceSymmetric | include/dmtk/element/function/euclidean.hpp:41-46 | the distance, sqrt of the squared distance, is symmetric |
| Euclidean.ContainerDistanceSquared | include/dmtk/element/function/euclidean.hpp:91-103 | the loop over cont1's length, pairing cont2 in lockstep, sums the squared differences; for equal lengths this is the tuple squared distance |
| Euclidean.ContainerDistance | include/dmtk/element/function/euclidean.hpp:69-81 | the container distance is sqrt of the same loop's sum, and equals the tuple distance for equal lengths |
| Distance.TupleDistanceSquaredSkip | include/dmtk/element/function/distance.hpp:56-59 | the squared distance over the first n-SkipLastN components is at least 0, and 0 exactly when those components agree |
| Distance.TupleDistanceSquaredSkipSymmetric | include/dmtk/element/function/distance.hpp:27-30 | the label-skipping squared distance is symmetric |
| Distance.TupleDistanceSkipIgnoresLabels | include/dmtk/element/function/distance.hpp:42-45 | changing only the trailing SkipLastN components changes neither distance |
| Distance.NoSkipAgreesWithEuclidean | include/dmtk/element/function/distance.hpp:11 | with SkipLastN = 0 both distances coincide with the euclidean.hpp definitions that share this include guard |
| Distance.ContainerDistanceSquaredSkip | include/dmtk/element/function/distance.hpp:91-103 | the container overload ignores SkipLastN and sums over all of cont1 |
| Distance.ContainerDistanceSkip | include/dmtk/element/function/distance.hpp:69-81 | the container distance is sqrt of the sum over all of cont1, whatever SkipLastN is |
| HmmDetail.HmmTables.constructor | include/dmtk/algorithm/hmm/detail/model.hpp:101-104 | the three tables held by a scale are the caller's tables |
| HmmDetail.Log2Values | include/dmtk/algorithm/hmm/detail/model.hpp:26-33 | the log2 rewrite keeps every key and maps each value v to log2(v) |
| HmmDetail.NestedLog2Values | include/dmtk/algorithm/hmm/detail/model.hpp:26-33 | the emission rewrite keeps every state and every inner key and takes log2 of every probability |
| HmmDetail.MapValuesToLog2 | include/dmtk/algorithm/hmm/detail/model.hpp:26-33 | the `for_each` loop over a map yields the log2 rewrite of it |
| HmmDetail.ProbabilityMapToLog2 | include/dmtk/algorithm/hmm/detail/model.hpp:26-33 | the emission table is rewritten in place to its log2 values; the other tables are unchanged |
| HmmDetail.TransitionMapToLog2 | include/dmtk/algorithm/hmm/detail/model.hpp:38-43 | the transition table is rewritten in place to its log2 values; the other tables are unchanged |
| HmmDetail.StartingProbsToLog2 | include/dmtk/algorithm/hmm/detail/model.hpp:48-53 | the start table is rewritten in place to its log2 values; the other tables are unchanged |
| HmmDetail.UniformStart | include/dmtk/algorithm/hmm/detail/model.hpp:58-66 | the default start table has exactly the emission table's states as keys, each with value v where v times the number of states is 1 |
| HmmDetail.DefaultStartingProbs | include/dmtk/algorithm/hmm/detail/model.hpp:58-66 | the filling loop, over a copy of the emission table, yields the uniform start table |
| HmmDetail.UniformStartSumsToOne | include/dmtk/algorithm/hmm/detail/model.hpp:58-66 | the uniform start table's values sum to 1 |
| HmmDetail.ProductOfPositives | include/dmtk/algorithm/hmm/detail/model.hpp:85-88 | a linear-scale product of positive probabilities is positive |
| HmmDetail.LogScaleTracksLinear | include/dmtk/algorithm/hmm/detail/model.hpp:101-121 | combining log values with the log scale's `mul` (addition) gives the log of the linear scale's product |
| HmmDetail.POfReportsOnItsScale | include/dmtk/algorithm/hmm/detail/model.hpp:85-118 | `p_of` converts nothing back: on the log scale it reports the log of the linear-scale product, not a probability |
| HmmDetail.ApplyScale | include/dmtk/algorithm/hmm/detail/model.hpp:79-121 | the linear scale leaves the tables unchanged; the log scale rewrites all three tables to their log2 values in place |
| HmmDetail.ValidateParameters | include/dmtk/algorithm/hmm/detail/model.hpp:127-149 | the failure for no emission entries, then for an empty transition table, then for an empty start table, then for a state count that differs from the start table's size, else success; the arguments are only read |
| HmmModel.Subscript | include/dmtk/algorithm/hmm/model.hpp:76-77 | `operator[]` returns the stored value, or inserts 0 and returns it for a missing key, and keeps every other entry |
| HmmModel.LikelihoodFactors | include/dmtk/algorithm/hmm/model.hpp:61-83 | the likelihood is the start factor times the emission product times the transition product |
| HmmModel.LikelihoodZeroIff | include/dmtk/algorithm/hmm/model.hpp:61-83 | the likelihood is 0 exactly when some emission or transition factor on the path is 0 |
| HmmModel.MissingKeyGivesZero | include/dmtk/algorithm/hmm/model.hpp:65-77 | a missing emission or transition key on the path makes the result 0 |
| HmmModel.StartFactorOneIff | include/dmtk/algorithm/hmm/model.hpp:61 | the start factor is 1 exactly when the path uses a single state |
| HmmModel.ProbabilityOf | include/dmtk/algorithm/hmm/model.hpp:28-84 | the size-mismatch error when path and observations differ in length; the table-size error unless distinct states times distinct observations equals the emission entry count; otherwise the path likelihood |
| HmmModel.MultiplyAlongPath | include/dmtk/algorithm/hmm/model.hpp:61-83 | the multiplication loop computes the path likelihood |
| HmmModel.FirstWinsSpec | include/dmtk/algorithm/hmm/model.hpp:92-107 | `emplace` over a list gives a map whose keys are the listed pairs, where a duplicate key keeps its first value |
| HmmModel.EmplaceAll | include/dmtk/algorithm/hmm/model.hpp:92-107 | the `emplace` loop builds the first-wins map |
| HmmModel.FirstWinsEmptyIff | include/dmtk/algorithm/hmm/model.hpp:92-107 | the built map is empty exactly when the list is |
| HmmModel.ProbabilityOfLists | include/dmtk/algorithm/hmm/model.hpp:86-114 | the list overload returns what the map overload returns on the first-wins maps |
| HmmModel.LoadedDieShape | test/test_algo_hmm.cpp:12-45 | the loaded-die path and tables pass the size checks |
| HmmModel.DiePathStates | test/test_algo_hmm.cpp:12-45 | the loaded-die path uses two distinct states |
| HmmModel.DieThrowFaces | test/test_algo_hmm.cpp:12-45 | the throws use six distinct faces |
| HmmModel.DieEmissionSize | test/test_algo_hmm.cpp:12-45 | the emission table has twelve entries |
| HmmModel.LoadedDieFactors | test/test_algo_hmm.cpp:12-45 | every emission and transition factor on the path is the table entry named in the test |
| HmmModel.LoadedDieLikelihood | test/test_algo_hmm.cpp:12-45 | the loaded-die path likelihood is 2.85087e-15 within 0.03 percent |
| Hierarchical.CheckSwap | include/dmtk/algorithm/clustering/hierachical.hpp:72-82 | the pair is reordered so that the smaller id comes first, and kept when already in order |
| Hierarchical.KeyOf | include/dmtk/algorithm/clustering/hierachical.hpp:47-52 | the cache key holds the two cluster ids, smaller first |
| Hierarchical.KeyOfSymmetric | include/dmtk/algorithm/clustering/hierachical.hpp:47-52 | (a, b) and (b, a) share one cache key |
| Hierarchical.HandleCaches | include/dmtk/algorithm/clustering/hierachical.hpp:54-60 | on a hit the stored value is used and the cache is unchanged; on a miss the metric is evaluated and stored under the key |
| Hierarchical.HandleTransparent | include/dmtk/algorithm/clustering/hierachical.hpp:46-65 | with a cache that holds true metric values, the handler selects what an uncached handler selects, and the cache stays true |
| Hierarchical.PairsFromSpec | include/dmtk/algorithm/clustering/hierachical.hpp:193-197 | the nested loops visit exactly the index pairs o < i, once each |
| Hierarchical.PairsFromOrdered | include/dmtk/algorithm/clustering/hierachical.hpp:193-197 | the pairs are visited in lexicographic order |
| Hierarchical.ScanTransparent | include/dmtk/algorithm/clustering/hierachical.hpp:193-197 | a scan through the cache selects what an uncached scan selects |
| Hierarchical.ScanFreshFirstMinimum | include/dmtk/algorithm/clustering/hierachical.hpp:61-63 | because only a strictly smaller value replaces the selection, the scan selects the first pair of minimal metric in visiting order |
| Hierarchical.MetricHandler.constructor | include/dmtk/algorithm/clustering/hierachical.hpp:43-44 | a handler starts with the given metric and an empty cache |
| Hierarchical.MetricHandler.Call | include/dmtk/algorithm/clustering/hierachical.hpp:46-65 | the call updates the selection and the cache field as the handler specification says |
| Hierarchical.MetricHandler.Invalidate | include/dmtk/algorithm/clustering/hierachical.hpp:67-70 | the entry under the ordered key of the pair is removed, and only that one |
| Hierarchical.ScanRow | include/dmtk/algorithm/clustering/hierachical.hpp:194-196 | the inner loop calls the handler on (o, i) for every i after o |
| Hierarchical.SelectPair | include/dmtk/algorithm/clustering/hierachical.hpp:193-197 | the nested loops scan every pair through the handler |
| Hierarchical.ScanSelectsPair | include/dmtk/algorithm/clustering/hierachical.hpp:186-197 | with two or more clusters and every metric value below the fp maximum, the scan selects a pair p < q, and it is the first minimum |
| Hierarchical.Without | include/dmtk/algorithm/clustering/hierachical.hpp:256-257 | erasing two clusters leaves the others in order |
| Hierarchical.ElementsWithout | include/dmtk/algorithm/clustering/hierachical.hpp:256-257 | the erased clusters' elements are exactly what the remaining clusters lack |
| Hierarchical.MergeKeepsOrder | include/dmtk/algorithm/clustering/hierachical.hpp:209 | the merged cluster's id, one past the last, keeps the ids increasing, so ids are never reused |
| Hierarchical.MergeKeepsShape | include/dmtk/algorithm/clustering/hierachical.hpp:240-257 | a merge keeps every cluster non-empty, drawn from the points, and below the sequence counter |
| Hierarchical.IdSetMerged | include/dmtk/algorithm/clustering/hierachical.hpp:240-257 | a merge removes the two ids and adds the new one |
| Hierarchical.MergeKeepsNodes | include/dmtk/algorithm/clustering/hierachical.hpp:215-235 | the new node has value (new id, metric) and the two merged nodes as edges; both old nodes leave the node map, which still matches the clusters |
| Hierarchical.MergeKeepsElements | include/dmtk/algorithm/clustering/hierachical.hpp:249-251 | the merged cluster, second's elements then first's, keeps the multiset of all points |
| Hierarchical.MergeKeepsCache | include/dmtk/algorithm/clustering/hierachical.hpp:263 | after a merge the cache still holds only true values for registered ids, so a stale entry is never read |
| Hierarchical.MergeKeepsInvariant | include/dmtk/algorithm/clustering/hierachical.hpp:209-263 | one loop iteration keeps the whole loop invariant |
| Hierarchical.MergeStep | include/dmtk/algorithm/clustering/hierachical.hpp:209-263 | the merge advances the counter by one, replaces the two clusters and nodes by the merged ones, and drops the pair's cache entry |
| Hierarchical.InitialState | include/dmtk/algorithm/clustering/hierachical.hpp:164-181 | the initial clusters, leaf nodes and empty cache satisfy the loop invariant with the counter at k |
| Hierarchical.InitialClusters | include/dmtk/algorithm/clustering/hierachical.hpp:164-181 | cluster i is (i, [point i]) and node i is a leaf with value (i, 0); the clusters hold all points |
| Hierarchical.InitialNodes | include/dmtk/algorithm/clustering/hierachical.hpp:164-181 | the initial leaf nodes match the singleton clusters |
| Hierarchical.RootId | include/dmtk/algorithm/clustering/hierachical.hpp:209 | with k >= 2 points the root id is 2k-1, after ids k+1 to 2k-1 are handed out |
| Hierarchical.SelectBest | include/dmtk/algorithm/clustering/hierachical.hpp:186-197 | the selection is a pair p < q and the first minimum over all pairs, and the cache stays true |
| Hierarchical.MergeBestPair | include/dmtk/algorithm/clustering/hierachical.hpp:186-264 | one iteration merges the first-minimum pair, lowers the cluster count by exactly 1 and keeps the invariant |
| Hierarchical.HierarchicalClustering | include/dmtk/algorithm/clustering/hierachical.hpp:133-272 | empty input is exactly the "One remaining root node" error; otherwise the root's id is the root id for the number of points, and the tree has one leaf per point |
| Hierarchical.RootFacts | include/dmtk/algorithm/clustering/hierachical.hpp:266-269 | when at most one cluster is left, there are no nodes for no points and exactly one node otherwise, the root of all points |
| HierarchicalExample.DataMetricBounded | include/dmtk/algorithm/clustering/hierachical.hpp:188 | on the three example points min linkage stays below the fp maximum |
| HierarchicalExample.DataDistanceBound | include/dmtk/algorithm/clustering/hierachical.hpp:188 | any two example points are two-dimensional and at squared distance at most 162 |
| HierarchicalExample.ThreePointRoot | test/test_algo_clustering_hierarchical.cpp:12-18 | clustering [1,1], [2,2], [10,10] with the default metric gives root id 5 and three leaves |
| ClusterMetric.LinkageExtremum | include/dmtk/algorithm/clustering/metric.hpp:35-49 | min (max) linkage is the least (greatest) squared distance over all pairs in a x b; with an empty cluster it is the fp maximum (the smallest positive fp value) |
| ClusterMetric.ExtremumSymmetric | include/dmtk/algorithm/clustering/metric.hpp:41-48 | the extremum over a x b equals that over b x a |
| ClusterMetric.LinkageSymmetric | include/dmtk/algorithm/clustering/metric.hpp:41-48 | swapping the clusters changes neither linkage |
| ClusterMetric.EuclideanDistanceMetric | include/dmtk/algorithm/clustering/metric.hpp:32-50 | the nested loops compute the linkage |
| ClusterMetric.CentroidMetric | include/dmtk/algorithm/clustering/metric.hpp:76-78 | the centroid metric is at least 0, and 0 exactly when the centroids coincide |
| ClusterMetric.CentroidMetricSymmetric | include/dmtk/algorithm/clustering/metric.hpp:76-78 | the centroid metric is symmetric |
| ClusterMetric.GroupSumSymmetric | include/dmtk/algorithm/clustering/metric.hpp:94-98 | the sum of unsquared distances over a x b equals that over b x a |
| ClusterMetric.ZeroGroupSum | include/dmtk/algorithm/clustering/metric.hpp:94-98 | against an empty cluster the sum is 0 |
| ClusterMetric.GroupAverageSymmetric | include/dmtk/algorithm/clustering/metric.hpp:87-101 | the group average is symmetric |
| ClusterMetric.EuclideanGroupAverageMetric | include/dmtk/algorithm/clustering/metric.hpp:87-101 | the result times \|a\|.\|b\| is the sum of unsquared distances over all pairs |
| KMeans.ClosestMinimal | include/dmtk/algorithm/clustering/kmeans.hpp:90-102 | the chosen cluster has the least seeding distance, unsquared for cluster 0 and squared for the others, and ties go to the lower index |
| KMeans.Closest | include/dmtk/algorithm/clustering/kmeans.hpp:90-102 | the closest cluster is an index of an existing cluster |
| KMeans.CreateFromSelection | include/dmtk/algorithm/clustering/kmeans.hpp:47-49 | an empty seed selection is exactly the "Invalid cluster initialization" error |
| KMeans.Created | include/dmtk/algorithm/clustering/kmeans.hpp:54-115 | seeding creates one cluster per selected seed, each with a centroid of the samples' dimension |
| KMeans.CreatedConsistent | include/dmtk/algorithm/clustering/kmeans.hpp:54-115 | after seeding and assignment every centroid is the centroid of its cluster |
| KMeans.CreatedSeedsHead | include/dmtk/algorithm/clustering/kmeans.hpp:54-74 | cluster j starts with seed j |
| KMeans.CreatedCount | include/dmtk/algorithm/clustering/kmeans.hpp:81-115 | with distinct seed indexes the cluster sizes sum to the number of samples |
| KMeans.AssignAppends | include/dmtk/algorithm/clustering/kmeans.hpp:107-113 | an assigned sample is appended to the closest cluster only |
| KMeans.AssignConsistent | include/dmtk/algorithm/clustering/kmeans.hpp:107-113 | only the receiving cluster's centroid is recomputed, which keeps every centroid right |
| KMeans.SeedClusters | include/dmtk/algorithm/clustering/kmeans.hpp:54-74 | the seeding loop builds one singleton cluster per seed and marks the seed indexes used |
| KMeans.ClosestCluster | include/dmtk/algorithm/clustering/kmeans.hpp:90-102 | the inner loop finds the closest cluster |
| KMeans.AssignSample | include/dmtk/algorithm/clustering/kmeans.hpp:104-113 | the assignment step appends the sample and recomputes that centroid |
| KMeans.CreateKMeansClustersFromSelection | include/dmtk/algorithm/clustering/kmeans.hpp:32-118 | the whole seeding and assignment is the specified result |
| KMeans.FindSampleFirst | include/dmtk/algorithm/clustering/kmeans.hpp:160-180 | the lookup finds no cluster exactly when the sample is in none; otherwise it finds the first cluster and position holding it |
| KMeans.FindSample | include/dmtk/algorithm/clustering/kmeans.hpp:167-174 | a found position is a cluster and an index in it that hold the sample |
| KMeans.NearestMinimal | include/dmtk/algorithm/clustering/kmeans.hpp:186-200 | the best cluster has the least average distance, the lowest index on ties |
| KMeans.Nearest | include/dmtk/algorithm/clustering/kmeans.hpp:186-198 | the nearest cluster is an index of an existing cluster |
| KMeans.MoveKeeps | include/dmtk/algorithm/clustering/kmeans.hpp:203-217 | erase-plus-append keeps the multiset of all elements |
| KMeans.StepErr | include/dmtk/algorithm/clustering/kmeans.hpp:219-221 | a step fails exactly when the sample is in no cluster |
| KMeans.Step | include/dmtk/algorithm/clustering/kmeans.hpp:161-221 | a step's only error is the missing sample, and it keeps the number of clusters |
| KMeans.StepMoved | include/dmtk/algorithm/clustering/kmeans.hpp:186-217 | a move happens only when the best cluster's average is strictly smaller, never into the sample's own cluster, and touches only those two clusters |
| KMeans.StepKeeps | include/dmtk/algorithm/clustering/kmeans.hpp:186-217 | a step keeps the multiset of all elements |
| KMeans.PassFacts | include/dmtk/algorithm/clustering/kmeans.hpp:157-223 | a pass fails exactly when some sample is in no cluster; otherwise it keeps the elements and recentres only the touched clusters, and no move means nothing changed |
| KMeans.PassOf | include/dmtk/algorithm/clustering/kmeans.hpp:154-223 | a successful pass keeps the clusters well formed and their number unchanged |
| KMeans.RebalancedFacts | include/dmtk/algorithm/clustering/kmeans.hpp:148-223 | rebalancing fails exactly when a sample is missing; on success it keeps the elements, and when it reports convergence the last pass moved nothing |
| KMeans.Rebalanced | include/dmtk/algorithm/clustering/kmeans.hpp:148-223 | successful rebalancing keeps the clusters well formed and their number unchanged |
| KMeans.NearestCluster | include/dmtk/algorithm/clustering/kmeans.hpp:186-200 | the search loop finds the nearest cluster and its average distance |
| KMeans.SampleTurn | include/dmtk/algorithm/clustering/kmeans.hpp:157-221 | one sample's turn advances the pass, or reports the missing sample |
| KMeans.Pass | include/dmtk/algorithm/clustering/kmeans.hpp:157-223 | the pass loop computes one pass |
| KMeans.RebalanceKMeansClusters | include/dmtk/algorithm/clustering/kmeans.hpp:140-225 | the rebalance loop computes the fuel-bounded rebalance |
| Knn.PicksRepeatOnlyRowZero | include/dmtk/algorithm/clustering/knn.hpp:54-72 | exactly k rows are picked; only row 0 can be picked twice |
| Knn.Picks | include/dmtk/algorithm/clustering/knn.hpp:54-72 | k picks, each the index of a sample |
| Knn.Pick | include/dmtk/algorithm/clustering/knn.hpp:54-69 | a pick is a sample index that is row 0 or not yet used |
| Knn.PicksExample | include/dmtk/algorithm/clustering/knn.hpp:54-72 | distances 5, 1, 2, 3 with k = 3 pick rows 1, 2, 3 |
| Knn.PickNearest | include/dmtk/algorithm/clustering/knn.hpp:54-69 | each round picks the nearest of row 0 and the unused rows, the lowest index on ties |
| Knn.TallyCounts | include/dmtk/algorithm/clustering/knn.hpp:74-76 | `++counters[label]` adds one to that label's count only |
| Knn.TallyCount | include/dmtk/algorithm/clustering/knn.hpp:74-76 | one tally raises the count of its own label by one and leaves every other label's count unchanged |
| Knn.Tally | include/dmtk/algorithm/clustering/knn.hpp:74-76 | a new label is appended with count 1, and a known label keeps its place |
| Knn.LabelsOf | include/dmtk/algorithm/clustering/knn.hpp:74-76 | the tallied labels are the picked rows' categories, in pick order |
| Knn.CountersExample | include/dmtk/algorithm/clustering/knn.hpp:74-77 | tallying a, b, b gives a:1 then b:2 |
| Knn.CountersOfTotal | include/dmtk/algorithm/clustering/knn.hpp:49-77 | the counts sum to k |
| Knn.CountersOfCounts | include/dmtk/algorithm/clustering/knn.hpp:49-77 | each label's count is the number of picked rows carrying it |
| Knn.CountersOfEmpty | include/dmtk/algorithm/clustering/knn.hpp:79-80 | the counters are empty exactly when no row was picked |
| Knn.ScanMaximal | include/dmtk/algorithm/clustering/knn.hpp:83-89 | the scan's count is at least the start and every count scanned, and is kept unless strictly beaten |
| Knn.VoteMajority | include/dmtk/algorithm/clustering/knn.hpp:79-89 | the intended vote is a label of greatest count |
| Knn.PredictionNotPossible | include/dmtk/algorithm/clustering/knn.hpp:94-96 | "Prediction not possible" exactly when k is 0 |
| Knn.PredictionMajority | include/dmtk/algorithm/clustering/knn.hpp:79-93 | a successful prediction is a label of greatest count among the k picks |
| Knn.VoteCounterexample | include/dmtk/algorithm/clustering/knn.hpp:81-82 | counters a:1, b:2 make the vote as written "a" and the intended vote "b" |
| Knn.NearestUnused | include/dmtk/algorithm/clustering/knn.hpp:54-69 | the inner loop computes one round's pick |
| Knn.CountVotes | include/dmtk/algorithm/clustering/knn.hpp:49-77 | the k rounds produce the counters of the picked labels |
| Knn.ScanCounters | include/dmtk/algorithm/clustering/knn.hpp:83-89 | the iterator loop computes the scan |
| Knn.PredictByKnnAsWritten | include/dmtk/algorithm/clustering/knn.hpp:31-97 | the function as written, with the guess count read from the second counter |
| Knn.PredictByKnn | include/dmtk/algorithm/clustering/knn.hpp:31-97 | the function with the guess count read from the first counter |
| Optimize.Best | include/dmtk/algorithm/optimize.hpp:45-56 | the result index lies in [from_n, max(from_n+1, to_n)) and the value is the algorithm at that index |
| Optimize.BestNotBeaten | include/dmtk/algorithm/optimize.hpp:48-54 | no examined index beats the result under the comparator |
| Optimize.BestEarliest | include/dmtk/algorithm/optimize.hpp:50 | every earlier index is strictly worse, so the earliest optimum wins |
| Optimize.OptimizeN | include/dmtk/algorithm/optimize.hpp:76-84 | the loop computes the optimum over the range |
| Optimize.Minimize | include/dmtk/algorithm/optimize.hpp:133-141 | the least value over [0, n), at its earliest index |
| Optimize.Maximize | include/dmtk/algorithm/optimize.hpp:115-123 | the greatest value over [0, n), at its earliest index |
| Aggregate.MinIndex | include/dmtk/algorithm/aggregate.hpp:29-35 | the index of the first minimal element, 0 when empty |
| Aggregate.MinElement | include/dmtk/algorithm/aggregate.hpp:29-49 | for any caller-supplied comparator that is a strict weak order, the search returns an element that nothing strictly precedes and that strictly precedes every earlier element, so the first best; 0 when empty |
| Aggregate.MaxIndex | include/dmtk/algorithm/aggregate.hpp:43-49 | the index of the first maximal element, 0 when empty |
| Aggregate.SumOfConcat | include/dmtk/algorithm/aggregate.hpp:59-67 | the sum of a concatenation is the sum of the sums |
| Aggregate.Sum | include/dmtk/algorithm/aggregate.hpp:57-84 | the loop computes the sum of op over the range, which is 0 when empty |
| Aggregate.Avg | include/dmtk/algorithm/aggregate.hpp:105-113 | the average times the size is the sum |
| Aggregate.CentroidColumns | include/dmtk/algorithm/aggregate.hpp:120-131 | each component of the centroid is the column sum divided by the count |
| Aggregate.CentroidSingleton | include/dmtk/algorithm/aggregate.hpp:120-131 | the centroid of one point is that point |
| Aggregate.Centroid | include/dmtk/algorithm/aggregate.hpp:120-131 | the accumulation loop computes the centroid |
| Aggregate.SumDistanceEuclidean | include/dmtk/algorithm/aggregate.hpp:183-196 | the sum of unsquared distances to the element, 0 when empty |
| Aggregate.SumSquared | include/dmtk/algorithm/aggregate.hpp:159-172 | also the sum of unsquared distances, 0 when empty |
| Aggregate.AverageDistanceMean | include/dmtk/algorithm/aggregate.hpp:207-220 | the average distance times the size is the distance sum |
| Aggregate.AverageDistance | include/dmtk/algorithm/aggregate.hpp:207-220 | the average distance of an empty container is 0 |
| Aggregate.AverageDistanceEuclidean | include/dmtk/algorithm/aggregate.hpp:207-220 | the loop computes the average distance, 0 when empty |
| Pairwise.PairKey | include/dmtk/algorithm/cache/pairwise.hpp:93-104 | the key holds both ids, smaller first |
| Pairwise.PairKeySymmetric | include/dmtk/algorithm/cache/pairwise.hpp:29-30 | (a, b) and (b, a) give the same key |
| Pairwise.PairwiseCache.constructor | include/dmtk/algorithm/cache/pairwise.hpp:36-43 | a new cache is empty |
| Pairwise.PairwiseCache.Lookup | include/dmtk/algorithm/cache/pairwise.hpp:45-68 | on a hit the stored entry is returned unchanged; on a miss the generator's value is stored and returned |
| Pairwise.PairwiseCache.Emplace | include/dmtk/algorithm/cache/pairwise.hpp:73-79 | an existing key is never overwritten |
| Pairwise.PairwiseCache.Invalidate | include/dmtk/algorithm/cache/pairwise.hpp:81-86 | only the unordered pair's entry is removed |
| Pairwise.PairwiseCache.InvalidateAll | include/dmtk/algorithm/cache/pairwise.hpp:88-90 | the cache becomes empty |
| Pairwise.LookupTransparent | include/dmtk/algorithm/cache/pairwise.hpp:49-67 | with a cache of true values, both orders of a lookup return the generator's value, and the cache stays true |
| Pairwise.LookupTwice | include/dmtk/algorithm/cache/pairwise.hpp:49-67 | looking up (b, a) after (a, b) returns the same value and leaves the cache unchanged |
| ProxMat.CellIndex | include/dmtk/algorithm/prox_mat.hpp:44-56 | flat index y.n+x lies inside the n.n buffer and divides back into row y and column x, so distinct cells never share a slot |
| ProxMat.ProximityMatrix.constructor | include/dmtk/algorithm/prox_mat.hpp:34-52 | rows = cols = n, and the fill loops write every one of the n.n cells in row-major order, the cell y.n+x holding metric(element x, element y) |
| ProxMat.ProximityMatrix.Get | include/dmtk/algorithm/prox_mat.hpp:54-56 | the cell at (x, y) is metric(element x, element y) |
| ProxMat.ProximityMatrix.GetSymmetric | include/dmtk/algorithm/prox_mat.hpp:54-56 | a symmetric metric gives a symmetric matrix |
| ProxMat.ProximityMatrix.Merge | include/dmtk/algorithm/prox_mat.hpp:58-61 | `merge` changes nothing |
| Normalize.NormalizeAtom | include/dmtk/algorithm/normalize.hpp:19-28 | (x-min)/range for a non-zero range; x - min/max for a zero range and non-zero max; x otherwise |
| Normalize.NormalizeAtomUnit | include/dmtk/algorithm/normalize.hpp:19-22 | a value within distinct bounds maps into [0, 1], min to 0 and max to 1 |
| Normalize.ApplyNormalization | include/dmtk/algorithm/normalize.hpp:30-43 | numbers are normalised and other components pass through unchanged |
| Normalize.NormalizeTuple | include/dmtk/algorithm/normalize.hpp:53-68 | only the first n-SkipLastN components are rewritten, each with its own bounds |
| Normalize.NormalizeVector | include/dmtk/algorithm/normalize.hpp:45-51 | all but the last SkipLast elements are normalised in place |
| Normalize.WidenFromEncloses | include/dmtk/algorithm/normalize.hpp:85-88 | after widening, the bounds enclose every visited value |
| Normalize.BoundsIntendedExact | include/dmtk/algorithm/normalize.hpp:81-88 | the bounds seeded from element 0 are the least and greatest value of each column |
| Normalize.BoundsAsWritten | include/dmtk/algorithm/normalize.hpp:81-88 | the as-written bounds have one entry per component of the first row |
| Normalize.BoundsIntended | include/dmtk/algorithm/normalize.hpp:81-88 | the intended bounds have one entry per component of the first row |
| Normalize.NormalizeIntendedUnit | include/dmtk/algorithm/normalize.hpp:90-93 | with those bounds every rewritten component lies in [0, 1] |
| Normalize.WidenBounds | include/dmtk/algorithm/normalize.hpp:85-88 | the widening loop computes the widened bounds |
| Normalize.NormalizeInPlace | include/dmtk/algorithm/normalize.hpp:90-93 | every element is rewritten in place and the length is kept |
| Normalize.NormalizeAsWritten | include/dmtk/algorithm/normalize.hpp:79-95 | empty input is untouched; otherwise min is seeded from element 0 and max from element 1, and every element is normalised with the widened bounds |
| Normalize.Normalize | include/dmtk/algorithm/normalize.hpp:79-95 | the same, with both bounds seeded from element 0 |
| Normalize.NormalizeCounterexample | include/dmtk/algorithm/normalize.hpp:83-84 | [5], [1], [3] become [4], [0], [2] as written and [1], [0], [0.5] as intended |
| Operations.FindMinMaxAtom | include/dmtk/element/operations.hpp:25-41 | for a number, min <= value <= max afterwards and each bound changes only to the value; any other atom leaves the bounds alone |
| Operations.FindMinMax | include/dmtk/element/operations.hpp:48-80 | the atom rule is applied to the first n-SkipLastN components only |
| Operations.FindMinMaxEncloses | include/dmtk/element/operations.hpp:77-80 | every rewritten numeric component lies within its new bounds |
| Operations.FindMinMaxVector | include/dmtk/element/operations.hpp:55-67 | the three vectors are walked together up to the shortest, and the elements beyond it are untouched |
| Operations.ElementAdd | include/dmtk/element/operations.hpp:96-106 | tuple `element_add` adds every component |
| Operations.ElementAddContainerAsWritten | include/dmtk/element/operations.hpp:108-123 | both iterators walk `add`, so `add` is doubled and `value` is untouched |
| Operations.ElementAddContainerCounterexample | include/dmtk/element/operations.hpp:108-123 | [1] plus [2] leaves [1], and the addend becomes [4] |
| Operations.ElementAddContainer | include/dmtk/element/operations.hpp:108-123 | `value` is grown to `add`'s length and the two are summed component-wise |
| Operations.PaddedSum | include/dmtk/element/operations.hpp:108-123 | the sum has the longer length, and each position adds the components present there, reading a missing one as 0 |
| Operations.PaddedSumOfTuples | include/dmtk/element/operations.hpp:96-123 | on equal lengths the container sum is the tuple sum |
| Operations.ElementDivTupleAsWritten | include/dmtk/element/operations.hpp:126-129 | tuple-by-tuple `element_div` calls the add helper, so it adds |
| Operations.ElementDivTupleCounterexample | include/dmtk/element/operations.hpp:126-129 | [6] divided by [3] gives [9] as written and [2] as intended |
| Operations.ElementDivTuple | include/dmtk/element/operations.hpp:126-129 | component-wise division: each quotient times its divisor gives back the component |
| Operations.ElementDivScalar | include/dmtk/element/operations.hpp:142-152 | each component divided by the scalar |
| Operations.ElementDivScalarOne | include/dmtk/element/operations.hpp:149-152 | dividing by 1 changes nothing |
| Operations.ContainerDivScalar | include/dmtk/element/operations.hpp:154-162 | the container is divided by the scalar in place |
| Operations.ContainerDiv | include/dmtk/element/operations.hpp:131-140 | the container is divided in place by the divider's matching elements |
| Regression.NormalEquationsUnique | include/dmtk/algorithm/regression.hpp:12-16 | with a non-zero determinant the least-squares line is unique |
| Regression.FormulaSolves | include/dmtk/algorithm/regression.hpp:43-44 | the closed forms for m and b satisfy the normal equations |
| Regression.FitFromSums | include/dmtk/algorithm/regression.hpp:43-46 | the returned (b, m) is the least-squares line of the sums |
| Regression.Fit | include/dmtk/algorithm/regression.hpp:31-46 | the fitted (b, m) satisfies the normal equations of the sums |
| Regression.SumsOnLine | include/dmtk/algorithm/regression.hpp:36-41 | points on y = b + m.x satisfy the normal equations at (b, m) |
| Regression.ExactLine | include/dmtk/algorithm/regression.hpp:13-46 | points lying exactly on y = b + m.x, with at least two distinct x, fit to (b, m) |
| Regression.AccumulateSums | include/dmtk/algorithm/regression.hpp:36-41 | the loop computes the sums of x, y, x.x and x.y |
| Regression.SimpleLinearRegressionAsWritten | include/dmtk/algorithm/regression.hpp:17-47 | the size check compares x's length with itself, so it never fails; y is read at every index below \|x\| |
| Regression.SimpleLinearRegression | include/dmtk/algorithm/regression.hpp:17-47 | the size-mismatch error exactly when the lengths differ, else the least-squares fit |
| Regression.RegressionSizeCounterexample | include/dmtk/algorithm/regression.hpp:22-29 | x = [0, 1] against y = [1, 3, 5] fits (1, 2) as written, where the intended check fails |
| Regression.RssOf | include/dmtk/algorithm/regression.hpp:54-78 | the error exactly when the lengths differ; otherwise a value at least 0, and 0 exactly when actual = predicted |
| Regression.Rss | include/dmtk/algorithm/regression.hpp:65-77 | the loop computes the residual sum of squares |
| Regression.Predicted | include/dmtk/algorithm/regression.hpp:81-91 | the prediction has the input's length and element i is b0 + b1.x_i |
| Regression.PredictBySimpleLinearRegression | include/dmtk/algorithm/regression.hpp:81-91 | the appending loop computes the prediction |
| Regression.ExactFitNoResidual | include/dmtk/algorithm/regression.hpp:54-91 | predicting points on a line from their own fit leaves residual 0 |
| Data.DetectFileType | include/dmtk/data/io/data.hpp:38-56 | a suggested type is kept; detection otherwise gives a known type, and fails exactly when the name ends in neither ".csv" nor ".tsv" |
| Data.DetectFileTypeSuffix | include/dmtk/data/io/data.hpp:40-51 | ".csv" is csv and ".tsv" is tsv, and a detected type suggested again is kept |
| Data.FileTypeToSeparator | include/dmtk/data/io/data.hpp:58-66 | tab exactly for tsv, comma for every other type |
| Data.GetLine | include/dmtk/data/io/data.hpp:69-70 | a `getline` on a live stream consumes input; it fails exactly when a flag is set or nothing is left |
| Data.GetLineSplits | include/dmtk/data/io/data.hpp:69-70 | a successful read splits the input into the delimiter-free buffer and the rest |
| Data.OutStream.Write | include/dmtk/data/io/data.hpp:90-93 | `os << s` appends s |
| Data.TupleToLine | include/dmtk/data/io/data.hpp:89-94 | a row is written as its first field, then separator and field for each other field, then a newline |
| Data.JoinAppend | include/dmtk/data/io/data.hpp:90-94 | a written row is the row without its last field, then the separator, then that field |
| Data.Slots | include/dmtk/data/io/data.hpp:68-75 | each slot reads one segment and a parse failure is "Failed loading row" |
| Data.LoadTuple | include/dmtk/data/io/data.hpp:77-87 | a loaded row has exactly n values |
| Data.SlotsJoin | include/dmtk/data/io/data.hpp:68-87 | every slot of a written row reads its own field, when the fields are non-empty, free of the separator and parse |
| Data.GetLineJoin | include/dmtk/data/io/data.hpp:69-70 | every `getline` on a written row succeeds |
| Data.JoinLoadTuple | include/dmtk/data/io/data.hpp:68-94 | splitting a written row gives back its fields when they are non-empty and free of the separator |
| Data.LoadTupleIndexes | include/dmtk/data/io/data.hpp:77-87 | the slot loop computes the row |
| Data.SlotsErrSticky | include/dmtk/data/io/data.hpp:68-75 | once a slot fails, the row fails |
| Data.LoadAllErrSticky | include/dmtk/data/io/data.hpp:106-119 | once a line fails to load, the lines after it change nothing: the load stops with that error |
| Data.LoadAllEach | include/dmtk/data/io/data.hpp:106-119 | all lines load exactly when each one does, to its own value, in order |
| Data.LoadTuplesIntoContainer | include/dmtk/data/io/data.hpp:106-119 | the line loop appends one tuple per line until the stream ends, stopping at the first failing row |
| Data.LoadValuesIntoContainerAsWritten | include/dmtk/data/io/data.hpp:121-141 | the single-value loader reads every line and appends nothing |
| Data.ValueLoaderCounterexample | include/dmtk/data/io/data.hpp:121-141 | a file holding "2" and "1" loads as no values as written, and as [2, 1] as intended |
| Data.LoadTwoValues | include/dmtk/data/io/data.hpp:121-141 | the intended loader reads a file holding "2" and "1" as [2, 1] |
| Data.LoadValuesIntoContainer | include/dmtk/data/io/data.hpp:121-141 | the intended loop appends one parsed value per line |
| Data.LinesFromText | include/dmtk/data/io/data.hpp:106-119 | written rows are read back line by line when no field holds a newline |
| Data.Loaded | include/dmtk/data/io/data.hpp:208-239 | an undetectable name is the detection error, and a missing header line is "Failed reading header" |
| Data.SingleTypeLoadsNothing | include/dmtk/data/io/data.hpp:224-235 | loading a single type yields no values whatever the file holds |
| Data.Load | include/dmtk/data/io/data.hpp:208-239 | detection, the header line and the element loader compute the load |
| Data.SkipHeader | include/dmtk/data/io/data.hpp:218-222 | after the header line the stream holds what follows it |
| Data.SaveLoadRoundTrip | include/dmtk/data/io/data.hpp:89-119 | rows written with the type's separator load back as their values |
| ElementView.ElementCopy | include/dmtk/data/view/element.hpp:39-47 | one index gives the bare field; several give a tuple of the fields in the given index order |
| ElementView.CopyAllIndexes | include/dmtk/data/view/element.hpp:44-47 | selecting every index in order copies the element |
| ElementView.CopyOfCopy | include/dmtk/data/view/element.hpp:65-68 | a selection of a selection is one selection by the composed indexes |
| ElementView.WriteThrough | include/dmtk/data/view/element.hpp:29-37 | a write through a view reference changes that field and no other |
| ElementView.ViewSeesWrite | include/dmtk/data/view/element.hpp:29-37 | views alias the element: a view of the written field reads the new value, and views of other fields are unchanged |
| ContainerView.Table.constructor | include/dmtk/data/view/container.hpp:66 | a container holds the given rows |
| ContainerView.ViewContainer.constructor | include/dmtk/data/view/container.hpp:66 | a view refers to the container itself |
| ContainerView.ViewContainer.Size | include/dmtk/data/view/container.hpp:98-105 | the view's size is the container's current size |
| ContainerView.ViewContainer.At | include/dmtk/data/view/container.hpp:74-80 | `view[i]` is the projection of the container's current row i |
| ContainerView.ViewContainer.Assign | include/dmtk/data/view/container.hpp:74-80 | a write through `view[i]` changes the container's row i at that field only |
| ContainerView.View | include/dmtk/data/view/container.hpp:111-115 | `view` wraps the container and needs at least one index |
| ContainerView.SharedWrite | include/dmtk/data/view/container.hpp:66-108 | two views of one container see each other's writes |
| ContainerView.Copied | include/dmtk/data/view/container.hpp:117-126 | the copy has the container's length |
| ContainerView.Copy | include/dmtk/data/view/container.hpp:117-126 | the copying loop yields one projection per row, in order |
| ContainerView.CopyIsView | include/dmtk/data/view/container.hpp:117-126 | element i of the copy is what the view reads at i |
| ContainerView.Mapped | include/dmtk/data/view/container.hpp:134-143 | the map has the container's length |
| ContainerView.Map | include/dmtk/data/view/container.hpp:134-143 | the mapping loop yields func of each element, in order |
| ContainerView.MapMap | include/dmtk/data/view/container.hpp:134-143 | mapping twice is mapping once by the composition |
| ContainerView.CopyIsMap | include/dmtk/data/view/container.hpp:117-143 | copying is mapping the element copy |
| GraphNode.MakeLeaf | include/dmtk/util/graph/node.hpp:47-48 | the value-only constructor gives a node with that value and no edges, so `empty()` holds and `size()` is 0 |
| GraphNode.MakeNode | include/dmtk/util/graph/node.hpp:50-72 | the value-and-edges constructor keeps the edges in order; `size()` is their number and `empty()` holds exactly when there are none |
| GraphNode.Shallow | include/dmtk/util/graph/node.hpp:101-139 | what equality and hashing read of a node in the table: its value and, in edge order, the value each edge points to |
| GraphNode.EdgeValues | include/dmtk/util/graph/node.hpp:110-112 | one value per edge, in edge order |
| GraphNode.ShallowEqualIffSameKey | include/dmtk/util/graph/node.hpp:120-139 | node equality is equality of (value, edge values), hence an equivalence |
| GraphNode.GrandchildrenIgnored | include/dmtk/util/graph/node.hpp:130-137 | nodes whose children carry equal values are equal, whatever lies below |
| GraphNode.EqualTo | include/dmtk/util/graph/node.hpp:120-139 | the early-return loop is true exactly for equal values, equal edge counts and pairwise-equal edge values |
| GraphNode.Hash | include/dmtk/util/graph/node.hpp:101-115 | the seed combines the node value, then each edge value in order |
| GraphNode.EqualNodesHashEqually | include/dmtk/util/graph/node.hpp:101-139 | equal nodes hash equally |
| Visitor.CellKeyIffEqual | include/dmtk/util/graph/node.hpp:120-139 | two nodes of the table share a visited-set key exactly when `equal_to<graph_node>` holds between them |
| Visitor.Dfs | include/dmtk/util/graph/visitor.hpp:26-41 | the traversal ends on every graph, cycles included, because each call either marks a new key or descends from a node already marked; afterwards the node's key is visited, no key is unmarked, and every node seen is in the table |
| Visitor.DfsEdges | include/dmtk/util/graph/visitor.hpp:36-40 | the edge loop only adds keys, and sees only nodes of the table |
| Visitor.DfsSeen | include/dmtk/util/graph/visitor.hpp:26-41 | the visited set grows by exactly the keys of the nodes the visitor was applied to |
| Visitor.DfsEdgesSeen | include/dmtk/util/graph/visitor.hpp:36-40 | the same for the edge loop |
| Visitor.DfsDistinct | include/dmtk/util/graph/visitor.hpp:26-41 | from an unvisited node, no two nodes seen share a key, and none has a key visited before |
| Visitor.DfsEdgesDistinct | include/dmtk/util/graph/visitor.hpp:36-40 | the edge loop sees no key twice and none visited before |
| Visitor.DfsEdgesCoverFrom | include/dmtk/util/graph/visitor.hpp:36-40 | after the edge loop from edge i, the key of every edge from i on is visited, whether it was skipped or descended into |
| Visitor.DfsCovered | include/dmtk/util/graph/visitor.hpp:26-41 | every edge of every node seen leads to a node whose key is visited |
| Visitor.DfsEdgesCovered | include/dmtk/util/graph/visitor.hpp:36-40 | the same for the edge loop |
| Visitor.DfsReachable | include/dmtk/util/graph/visitor.hpp:26-41 | every node seen is reachable from the root along edges |
| Visitor.DfsEdgesReachable | include/dmtk/util/graph/visitor.hpp:36-40 | every node the edge loop sees is reachable through one of the edges it walked |
| Visitor.NodeBeforeChildren | include/dmtk/util/graph/visitor.hpp:34-40 | the node is seen first, and every child's key is visited by the end |
| Visitor.VisitDepthFirst | include/dmtk/util/graph/visitor.hpp:26-41 | the recursive traversal with its edge loop computes exactly the sequence of nodes `Dfs` sees and the visited set it leaves |
| Visitor.Visit | include/dmtk/util/graph/visitor.hpp:50-64 | from an empty visited set, on any graph including cyclic ones: the root comes first, no two nodes seen are equal, every node seen is reachable from the root, and every edge of a node seen leads to a node equal to one seen |
| Visitor.CycleVisitedOnce | include/dmtk/util/graph/visitor.hpp:50-64 | on a two-node cycle the traversal sees each node once and stops |

## Left out

- File opening, `std::fstream` state and the "Error occurred opening file" branch of `load` and `load_into` are I/O. The file's text is a parameter of `Data.Load`.
- Parsing a field with `istream >>` is library behaviour, so it is a parameter.
- `load_into`, `csv_into` and `tsv_into` run the same loaders into a caller's container. `csv` and `tsv` are `load` with the type fixed. None of them has a separate member, and partial appends left behind by a thrown error are not modelled.
- `save` calls `tuple_to_line_helper` without the file type it requires, so it does not compile as written. Its per-row step `tuple_to_line_helper_2` is modelled as `Data.TupleToLine`.
- The random routines are out: `create_k_means_clusters`, `sample_kmeans`, `minimize_kmeans`, `sample_knn_values`, `maximize_knn`, select.hpp and partition.hpp.
- Floating point is modelled as exact reals:
  - IEEE rounding, NaN and infinity are not modelled;
  - `1.0f / states_count` and `float` results are exact;
  - `sqrt` and `log2` are unspecified functions.
- Entropy, hashing libraries (tuple_hash.hpp, `boost::hash_combine`) and the `std::hash`/`equal_to` specialisations in hierachical.hpp are out. `GraphNode.Hash` takes the value hash and the combine step as parameters.
- The Viterbi decoder and the training loop are not part of this model. Their sources are not available.
- `collect_hierarchical_root_nodes` builds a vector and returns nothing, so it is not modelled.
- The Graphviz writer and `proximity_matrix::operator<<` are output formatting.
- `boost::transform_iterator` behind the container view is not modelled. The view is read through `ContainerView.ViewContainer.At`.
- KMeans.RebalanceKMeansClusters: the source repeats passes while one moves a sample, with no bound. The model runs at most `fuel` passes and reports whether it converged.
- KMeans.RebalanceKMeansClusters returns only the error when a sample is held by no cluster. The source updates the caller's clusters and centroids by reference, so the moves made earlier in that pass remain there after the throw; the model does not return that partly rebalanced state.
- Hierarchical.HierarchicalClustering requires every metric value on the points to lie below the fp maximum. Otherwise the loop would merge through `clusters.end()`.
- Hierarchical.MetricHandler.Invalidate: the source reads the keys of two iterators it has just erased. The model uses the keys the iterators held.
- Hierarchical.MergeStep: the source builds `clusters` with `k_clusters` buckets (hierachical.hpp:149), so `clusters.emplace` of the merged cluster (hierachical.hpp:240) may rehash the map. That invalidates `first_it` and `second_it` before `clusters.erase` uses them (hierachical.hpp:256-257), which is undefined as written. The model reads this as erasing the two selected clusters by their ids.
- Knn.PredictByKnnAsWritten requires a number of counted labels other than one. With a single label the source reads past the end of the counters.
- Knn.PredictByKnn requires a non-empty sample set when k > 0. The source indexes row 0 unconditionally.
- Knn.PredictByKnn: the source passes whole rows, string label included, to `euclidean_distance`, which subtracts every component, so `predict_by_knn` does not compile as written. The model measures the distance over the arithmetic coordinates only (`Knn.Distances`).
- Normalize.NormalizeAsWritten requires a length other than one. The source reads element 1 of a one-element range.
- ProxMat.ProximityMatrix.constructor allocates n.n cells. The source only reserves them and then writes through `operator[]`.
- Regression.SimpleLinearRegressionAsWritten requires `|x| <= |y|`: when x is longer than y, the accumulation loop (regression.hpp:36-41) reads `y[i]` past the end of y, which is undefined behaviour, so the model does not give that case a result.
- Regression.SimpleLinearRegression requires a non-zero determinant n.Σx² − (Σx)². The source divides by it; with fewer than two distinct x this gives an infinity or NaN.
- Euclidean.ContainerDistanceSquared requires cont2 to be at least as long as cont1. A shorter cont2 is read past its end.
- HmmModel.ProbabilityOf requires a non-empty path or tables. With all of them empty the source reads `states[0]` and divides by zero distinct states.
- HmmModel.LoadedDieLikelihood: the loaded-die test passes a nested emission table (`{'F', {{1, 1/6.0f}, ...}}`) and pair-keyed transitions. Neither `hmm_probability_of` overload accepts that shape, so the test does not compile as written. The model flattens the tables into (state, face) and (state, state) keyed maps with the same numbers.
- HmmModel.MultiplyAlongPath: the zero entries `operator[]` inserts into the caller's tables for missing keys are not returned. Only the likelihood is.
- GraphNode.Node: the source's edges are `shared_ptr`s, and `hash` and `equal_to` read `e.value` and `edges[i].value` on the pointer, which does not compile as written. The model reads the value of the node pointed to (`GraphNode.Shallow`). The by-value `Node` serves equality, hashing and the clustering result; the traversal works on a table of nodes whose edges are references into it.
- Visitor.Visit: the source calls `visited.find(e)` and recurses on `e` with `e` a pointer, which does not compile as written. The model looks up and descends into the node pointed to. The visitor callback is the sequence of nodes it is applied to.
- HmmDetail.ApplyScale: the two scale classes are one datatype, and the log scale's constructor is the in-place log2 rewrite.
- Pairwise.PairwiseCache: the member functions do not compile as written (a wrong iterator type and tuple access). The model follows the evident intent and the doc comment.
- Aggregate.Centroid: `centroid<SkipLastN>` and `average_distance_euclidean<SkipLastN>` do not compile as written. The model takes every component.
- Operations.ElementAddContainer: the container overload of `element_add` cannot be instantiated. Its `enable_if_t` template parameter is an unnamed non-type parameter of type `void` that can be neither deduced nor defaulted, and it calls `resize` on a `const` reference. So `element_add` on a vector, as in `centroid` (aggregate.hpp:127) on vector-valued points, does not compile as written. The model gives its evident intent, and `Operations.ElementAddContainerAsWritten` models the text of its body.
- Operations.ElementAddContainer returns a new sequence: the in-place `resize` of `value` and the addition into it are not modelled in place, so the aliasing of the caller's container is not captured.
- Element padding: `element_padding<Start, End>` and `element_padding_none` (element.hpp:39-48) are a compile-time pair of constants that no function in the core reads, so they are not modelled.
- Operations.ContainerDiv: container-by-container `element_div` divides by an iterator and does not compile as written. The model divides by the matching element.

## Findings

| source | as written | input that shows it | evidently intended | confidence | as-written member | corrected member |
|---|---|---|---|---|---|---|
| include/dmtk/algorithm/normalize.hpp:83-84 | min is seeded from element 0 and max from element 1, and widening starts at element 2 | the column [5], [1], [3] normalises to [4], [0], [2] | both bounds seeded from element 0, giving [1], [0], [0.5] | not executed | Normalize.NormalizeAsWritten | Normalize.Normalize |
| include/dmtk/element/operations.hpp:126-129 | tuple-by-tuple `element_div` calls the addition helper | [6] divided by [3] gives [9] | component-wise division, giving [2] | not executed | Operations.ElementDivTupleAsWritten | Operations.ElementDivTuple |
| include/dmtk/element/operations.hpp:108-123 | the container overload cannot be instantiated (see Left out); its body, read as written, iterates `add` against itself, and its resize check compares `value` with itself | on the body as written, [1] plus [2] leaves [1] and doubles the addend | `value` grown to `add`'s length and summed with it | not executed | Operations.ElementAddContainerAsWritten | Operations.ElementAddContainer |
| include/dmtk/algorithm/regression.hpp:22-29 | y's count is taken from x, so the size check never fails | x = [0, 1], y = [1, 3, 5] fits (1, 2) | "x and y size mismatch" | not executed | Regression.SimpleLinearRegressionAsWritten | Regression.SimpleLinearRegression |
| include/dmtk/data/io/data.hpp:121-141 | the single-value loader reads every line but appends nothing | a file holding "2" and "1" loads as no values | one parsed value per line, [2, 1] | not executed | Data.LoadValuesIntoContainerAsWritten | Data.LoadValuesIntoContainer |
| include/dmtk/algorithm/clustering/knn.hpp:81-82 | the guess is the first counter's label with the second counter's count | counters a:1, b:2 vote "a" | the first counter's own count, voting "b" | not executed | Knn.PredictByKnnAsWritten | Knn.PredictByKnn |
