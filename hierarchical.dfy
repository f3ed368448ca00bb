/** Agglomerative hierarchical clustering (algorithm/clustering/hierachical.hpp).
    The `unordered_map` of clusters is a sequence in iteration order, in which the merged
    cluster is appended at the end; an iterator into it is a position. */
module Hierarchical {
  import opened Wrappers
  import opened Numeric
  import opened GraphNode

  /** A map entry of `clusters`: the sequence id and the cluster's elements. */
  datatype Cluster<T> = Cluster(id: nat, elems: seq<T>)

  /** The merge selection (first iterator, second iterator, metric); `None` is `clusters.end()`. */
  datatype Selection = Selection(first: Option<nat>, second: Option<nat>, metric: real)

  /** The selection every scan starts from: (end, end, fp max). */
  const NoSelection: Selection := Selection(None, None, FpMax)

  /** `hierarchical_cluster_node_data`. */
  datatype NodeData = NodeData(seqId: nat, metric: real)

  /** A cluster metric, called on the two clusters' element vectors. */
  type Metric<-T> = (seq<T>, seq<T>) --> real

  type CacheKey = (nat, nat)

  /** `metric_handler::check_swap`: order two iterators so that the smaller id comes first. */
  function CheckSwap<T>(cl: seq<Cluster<T>>, lhs: nat, rhs: nat): (r: (nat, nat))
    requires lhs < |cl| && rhs < |cl|
    ensures r == (lhs, rhs) || r == (rhs, lhs)
    ensures cl[r.0].id <= cl[r.1].id
    ensures cl[lhs].id <= cl[rhs].id ==> r == (lhs, rhs)
  {
    if cl[lhs].id > cl[rhs].id then (rhs, lhs) else (lhs, rhs)
  }

  /** The order-normalised cache key of two clusters: (smaller id, larger id). */
  function KeyOf<T>(cl: seq<Cluster<T>>, lhs: nat, rhs: nat): (key: CacheKey)
    requires lhs < |cl| && rhs < |cl|
    ensures key.0 <= key.1
    ensures {key.0, key.1} == {cl[lhs].id, cl[rhs].id}
  {
    var (a, b) := CheckSwap(cl, lhs, rhs);
    (cl[a].id, cl[b].id)
  }

  /** (a, b) and (b, a) share one cache entry. */
  lemma KeyOfSymmetric<T>(cl: seq<Cluster<T>>, lhs: nat, rhs: nat)
    requires lhs < |cl| && rhs < |cl|
    ensures KeyOf(cl, lhs, rhs) == KeyOf(cl, rhs, lhs)
  {
  }

  /** The metric may be evaluated on the ordered pair the handler would evaluate. */
  ghost predicate Callable<T>(metric: Metric<T>, cl: seq<Cluster<T>>, lhs: nat, rhs: nat)
    requires lhs < |cl| && rhs < |cl|
  {
    var (a, b) := CheckSwap(cl, lhs, rhs);
    metric.requires(cl[a].elems, cl[b].elems)
  }

  /** The cache and the selection after one handler call. */
  datatype Handled = Handled(cache: map<CacheKey, real>, selection: Selection)

  /** `metric_handler::operator()`: equal ids are skipped; otherwise the ordered key is
      looked up, the metric is evaluated and stored only on a miss, and the selection is
      replaced only by a strictly smaller value. */
  function Handle<T>(cache: map<CacheKey, real>, metric: Metric<T>, cl: seq<Cluster<T>>,
                     lhs: nat, rhs: nat, selection: Selection): Handled
    requires lhs < |cl| && rhs < |cl| && Callable(metric, cl, lhs, rhs)
  {
    if cl[lhs].id == cl[rhs].id then Handled(cache, selection)
    else
      var (a, b) := CheckSwap(cl, lhs, rhs);
      var key := (cl[a].id, cl[b].id);
      var result := if key in cache then cache[key] else metric(cl[a].elems, cl[b].elems);
      var cache' := if key in cache then cache else cache[key := result];
      Handled(cache', if result < selection.metric then Selection(Some(a), Some(b), result) else selection)
  }

  /** The handler's cache and selector without the cache: what a call selects when every
      value comes straight from the metric. */
  function Consider<T>(metric: Metric<T>, cl: seq<Cluster<T>>, lhs: nat, rhs: nat,
                       selection: Selection): Selection
    requires lhs < |cl| && rhs < |cl| && Callable(metric, cl, lhs, rhs)
  {
    if cl[lhs].id == cl[rhs].id then selection
    else
      var (a, b) := CheckSwap(cl, lhs, rhs);
      var result := metric(cl[a].elems, cl[b].elems);
      if result < selection.metric then Selection(Some(a), Some(b), result) else selection
  }

  /** Every cached value is the metric of the two clusters its key names. `registry` holds
      the elements of every cluster id ever created; ids are never reused. */
  ghost predicate CacheConsistent<T>(cache: map<CacheKey, real>, metric: Metric<T>,
                                     registry: map<nat, seq<T>>)
  {
    forall key :: key in cache ==>
      key.0 in registry && key.1 in registry
      && metric.requires(registry[key.0], registry[key.1])
      && cache[key] == metric(registry[key.0], registry[key.1])
  }

  /** Every current cluster is registered under its id with its elements. */
  ghost predicate Registered<T>(cl: seq<Cluster<T>>, registry: map<nat, seq<T>>)
  {
    forall i :: 0 <= i < |cl| ==> cl[i].id in registry && registry[cl[i].id] == cl[i].elems
  }

  /** A hit returns the stored value and leaves the cache as it is; the metric runs only on a
      miss, and its value is stored under the ordered key. */
  lemma HandleCaches<T>(cache: map<CacheKey, real>, metric: Metric<T>, cl: seq<Cluster<T>>,
                        lhs: nat, rhs: nat, selection: Selection)
    requires lhs < |cl| && rhs < |cl| && Callable(metric, cl, lhs, rhs)
    requires cl[lhs].id != cl[rhs].id
    ensures var key := KeyOf(cl, lhs, rhs);
      var h := Handle(cache, metric, cl, lhs, rhs, selection);
      (key in cache ==> h.cache == cache)
      && (key !in cache ==> h.cache == cache[key := metric(cl[CheckSwap(cl, lhs, rhs).0].elems,
                                                         cl[CheckSwap(cl, lhs, rhs).1].elems)])
  {
  }

  /** With a consistent cache a call selects exactly what a fresh evaluation selects, and the
      cache stays consistent. */
  lemma HandleTransparent<T>(cache: map<CacheKey, real>, metric: Metric<T>, cl: seq<Cluster<T>>,
                             lhs: nat, rhs: nat, selection: Selection, registry: map<nat, seq<T>>)
    requires lhs < |cl| && rhs < |cl| && Callable(metric, cl, lhs, rhs)
    requires CacheConsistent(cache, metric, registry) && Registered(cl, registry)
    ensures Handle(cache, metric, cl, lhs, rhs, selection).selection
            == Consider(metric, cl, lhs, rhs, selection)
    ensures CacheConsistent(Handle(cache, metric, cl, lhs, rhs, selection).cache, metric, registry)
  {
  }

  /** The pairs (o, i), o < i < n, from (o, i0) on, in the nested loops' order. */
  function PairsFrom(n: nat, o: nat, i0: nat): seq<(nat, nat)>
    decreases n - o, n - i0
  {
    if o >= n then []
    else if i0 >= n then PairsFrom(n, o + 1, o + 2)
    else [(o, i0)] + PairsFrom(n, o, i0 + 1)
  }

  /** Every pair the two loops visit: `o_it` over all clusters, `i_it` from the one after it. */
  function AllPairs(n: nat): seq<(nat, nat)>
  {
    PairsFrom(n, 0, 1)
  }

  /** Exactly the pairs o < i < n appear from (o, i0) on. */
  lemma {:induction false} PairsFromSpec(n: nat, o: nat, i0: nat)
    requires o < i0
    ensures forall p :: p in PairsFrom(n, o, i0) <==>
      p.0 < p.1 < n && (p.0 > o || (p.0 == o && p.1 >= i0))
    decreases n - o, n - i0
  {
    if o >= n {
    } else if i0 >= n {
      PairsFromSpec(n, o + 1, o + 2);
    } else {
      PairsFromSpec(n, o, i0 + 1);
      assert PairsFrom(n, o, i0) == [(o, i0)] + PairsFrom(n, o, i0 + 1);
    }
  }

  /** p comes before q in lexicographic order. */
  predicate LexBefore(p: (nat, nat), q: (nat, nat))
  {
    p.0 < q.0 || (p.0 == q.0 && p.1 < q.1)
  }

  lemma HeadBeforeRest(n: nat, o: nat, i0: nat)
    requires o < i0
    ensures forall q :: q in PairsFrom(n, o, i0 + 1) ==> LexBefore((o, i0), q)
  {
    PairsFromSpec(n, o, i0 + 1);
  }

  /** The pairs from (o, i0) on come in strictly increasing lexicographic order, which is the
      nested loops' order. */
  lemma {:induction false} PairsFromOrdered(n: nat, o: nat, i0: nat)
    requires o < i0
    ensures forall t, u :: 0 <= t < u < |PairsFrom(n, o, i0)| ==>
      LexBefore(PairsFrom(n, o, i0)[t], PairsFrom(n, o, i0)[u])
    decreases n - o, n - i0
  {
    if o >= n {
    } else if i0 >= n {
      PairsFromOrdered(n, o + 1, o + 2);
    } else {
      var rest := PairsFrom(n, o, i0 + 1);
      var ps := PairsFrom(n, o, i0);
      PairsFromOrdered(n, o, i0 + 1);
      HeadBeforeRest(n, o, i0);
      assert ps == [(o, i0)] + rest;
      forall t, u | 0 <= t < u < |ps| ensures LexBefore(ps[t], ps[u]) {
        assert ps[u] == rest[u - 1];
        if t == 0 {
          assert rest[u - 1] in rest;
        } else {
          assert ps[t] == rest[t - 1];
        }
      }
    }
  }

  /** Every pair names two clusters on which the handler may call the metric. */
  ghost predicate ScanReady<T>(metric: Metric<T>, cl: seq<Cluster<T>>, ps: seq<(nat, nat)>)
    decreases |ps|
  {
    ps == [] ||
    (ps[0].0 < |cl| && ps[0].1 < |cl| && Callable(metric, cl, ps[0].0, ps[0].1)
     && ScanReady(metric, cl, ps[1..]))
  }

  /** The handler applied to every pair in order (the two nested loops), with the cache. */
  function Scan<T>(cache: map<CacheKey, real>, metric: Metric<T>, cl: seq<Cluster<T>>,
                   ps: seq<(nat, nat)>, selection: Selection): Handled
    requires ScanReady(metric, cl, ps)
    decreases |ps|
  {
    if ps == [] then Handled(cache, selection)
    else
      var h := Handle(cache, metric, cl, ps[0].0, ps[0].1, selection);
      Scan(h.cache, metric, cl, ps[1..], h.selection)
  }

  /** The same scan, every value taken straight from the metric. */
  function ScanFresh<T>(metric: Metric<T>, cl: seq<Cluster<T>>, ps: seq<(nat, nat)>,
                        selection: Selection): Selection
    requires ScanReady(metric, cl, ps)
    decreases |ps|
  {
    if ps == [] then selection
    else ScanFresh(metric, cl, ps[1..], Consider(metric, cl, ps[0].0, ps[0].1, selection))
  }

  lemma {:induction false} ScanTransparent<T>(cache: map<CacheKey, real>, metric: Metric<T>,
                                              cl: seq<Cluster<T>>, ps: seq<(nat, nat)>,
                                              selection: Selection, registry: map<nat, seq<T>>)
    requires ScanReady(metric, cl, ps)
    requires CacheConsistent(cache, metric, registry) && Registered(cl, registry)
    ensures Scan(cache, metric, cl, ps, selection).selection == ScanFresh(metric, cl, ps, selection)
    ensures CacheConsistent(Scan(cache, metric, cl, ps, selection).cache, metric, registry)
    decreases |ps|
  {
    if ps != [] {
      HandleTransparent(cache, metric, cl, ps[0].0, ps[0].1, selection, registry);
      var h := Handle(cache, metric, cl, ps[0].0, ps[0].1, selection);
      ScanTransparent(h.cache, metric, cl, ps[1..], h.selection, registry);
    }
  }

  /** Ids strictly increase along the iteration order. */
  predicate IdsIncreasing<T>(cl: seq<Cluster<T>>)
  {
    forall i, j :: 0 <= i < j < |cl| ==> cl[i].id < cl[j].id
  }

  /** The metric value of the clusters at positions p < q. */
  function PairValue<T>(metric: Metric<T>, cl: seq<Cluster<T>>, pq: (nat, nat)): real
    requires pq.0 < pq.1 < |cl| && IdsIncreasing(cl)
    requires metric.requires(cl[pq.0].elems, cl[pq.1].elems)
  {
    metric(cl[pq.0].elems, cl[pq.1].elems)
  }

  /** Scan well-formedness for ordered pairs of increasing ids. */
  ghost predicate OrderedPairs<T>(metric: Metric<T>, cl: seq<Cluster<T>>, ps: seq<(nat, nat)>)
  {
    IdsIncreasing(cl)
    && (forall t :: 0 <= t < |ps| ==> ps[t].0 < ps[t].1 < |cl|)
    && (forall t :: 0 <= t < |ps| ==> metric.requires(cl[ps[t].0].elems, cl[ps[t].1].elems))
  }

  lemma {:induction false} OrderedPairsReady<T>(metric: Metric<T>, cl: seq<Cluster<T>>, ps: seq<(nat, nat)>)
    requires OrderedPairs(metric, cl, ps)
    ensures ScanReady(metric, cl, ps)
    decreases |ps|
  {
    if ps != [] {
      assert OrderedPairs(metric, cl, ps[1..]);
      OrderedPairsReady(metric, cl, ps[1..]);
    }
  }

  /** On an ordered pair, a call keeps the selection unless the pair's value is strictly smaller. */
  lemma ConsiderOrdered<T>(metric: Metric<T>, cl: seq<Cluster<T>>, pq: (nat, nat), s: Selection)
    requires pq.0 < pq.1 < |cl| && IdsIncreasing(cl)
    requires metric.requires(cl[pq.0].elems, cl[pq.1].elems)
    ensures Consider(metric, cl, pq.0, pq.1, s)
            == if PairValue(metric, cl, pq) < s.metric
               then Selection(Some(pq.0), Some(pq.1), PairValue(metric, cl, pq)) else s
  {
  }

  /** The first-minimum facts about a scan result r from starting selection s. */
  ghost predicate FirstMinimum<T>(metric: Metric<T>, cl: seq<Cluster<T>>, ps: seq<(nat, nat)>,
                                  s: Selection, r: Selection)
    requires OrderedPairs(metric, cl, ps)
  {
    r.metric <= s.metric
    && (forall t :: 0 <= t < |ps| ==> PairValue(metric, cl, ps[t]) >= r.metric)
    && (r.metric == s.metric ==> r == s)
    && (r.metric < s.metric ==>
          exists t :: 0 <= t < |ps| && r == Selection(Some(ps[t].0), Some(ps[t].1), r.metric)
            && PairValue(metric, cl, ps[t]) == r.metric
            && forall u :: 0 <= u < t ==> PairValue(metric, cl, ps[u]) > r.metric)
  }

  /** One step of the induction: the facts for the pairs after the head give them for all. */
  lemma FirstMinimumStep<T>(metric: Metric<T>, cl: seq<Cluster<T>>, ps: seq<(nat, nat)>,
                            s: Selection, r: Selection)
    requires |ps| > 0 && OrderedPairs(metric, cl, ps)
    requires OrderedPairs(metric, cl, ps[1..])
    requires FirstMinimum(metric, cl, ps[1..], Consider(metric, cl, ps[0].0, ps[0].1, s), r)
    ensures FirstMinimum(metric, cl, ps, s, r)
  {
    var h := ps[0];
    var v := PairValue(metric, cl, h);
    ConsiderOrdered(metric, cl, h, s);
    var s' := Consider(metric, cl, h.0, h.1, s);
    forall t | 0 <= t < |ps| ensures PairValue(metric, cl, ps[t]) >= r.metric {
      if t > 0 { assert ps[t] == ps[1..][t - 1]; }
    }
    if r.metric < s.metric {
      if r.metric < s'.metric {
        var t :| 0 <= t < |ps[1..]| && r == Selection(Some(ps[1..][t].0), Some(ps[1..][t].1), r.metric)
            && PairValue(metric, cl, ps[1..][t]) == r.metric
            && forall u :: 0 <= u < t ==> PairValue(metric, cl, ps[1..][u]) > r.metric;
        forall u | 0 <= u < t + 1 ensures PairValue(metric, cl, ps[u]) > r.metric {
          if u > 0 { assert ps[u] == ps[1..][u - 1]; }
        }
        assert ps[t + 1] == ps[1..][t];
      } else {
        assert r == s';
      }
    }
  }

  /** First-minimum selection: the result's value is at most every pair's value; a result
      below the starting value is the earliest pair attaining it, and every earlier pair is
      strictly larger; otherwise the starting selection is kept. */
  lemma {:induction false} ScanFreshFirstMinimum<T>(metric: Metric<T>, cl: seq<Cluster<T>>,
                                                    ps: seq<(nat, nat)>, s: Selection)
    requires OrderedPairs(metric, cl, ps)
    ensures ScanReady(metric, cl, ps)
    ensures FirstMinimum(metric, cl, ps, s, ScanFresh(metric, cl, ps, s))
    decreases |ps|
  {
    OrderedPairsReady(metric, cl, ps);
    if ps != [] {
      var s' := Consider(metric, cl, ps[0].0, ps[0].1, s);
      assert OrderedPairs(metric, cl, ps[1..]);
      ScanFreshFirstMinimum(metric, cl, ps[1..], s');
      FirstMinimumStep(metric, cl, ps, s, ScanFresh(metric, cl, ps[1..], s'));
    }
  }

  /** `detail::metric_handler`: the metric and the order-normalised result cache. */
  class MetricHandler<T(==)> {
    const metric: Metric<T>
    var resultCache: map<CacheKey, real>

    constructor (metric: Metric<T>)
      ensures this.metric == metric && resultCache == map[]
    {
      this.metric := metric;
      resultCache := map[];
    }

    /** `operator()(lhs, rhs, selection)`. */
    method Call(cl: seq<Cluster<T>>, lhs: nat, rhs: nat, selection: Selection) returns (sel: Selection)
      requires lhs < |cl| && rhs < |cl| && Callable(metric, cl, lhs, rhs)
      modifies this
      ensures Handled(resultCache, sel) == Handle(old(resultCache), metric, cl, lhs, rhs, selection)
    {
      sel := selection;
      if cl[lhs].id != cl[rhs].id {
        var a, b := lhs, rhs;
        if cl[a].id > cl[b].id {
          a, b := b, a;
        }
        var result: real;
        var key := (cl[a].id, cl[b].id);
        if key in resultCache {
          result := resultCache[key];
        } else {
          result := metric(cl[a].elems, cl[b].elems);
          resultCache := resultCache[key := result];
        }
        if result < sel.metric {
          sel := Selection(Some(a), Some(b), result);
        }
      }
    }

    /** `invalidate(lhs, rhs)`: drop the pair's entry, whichever order it is named in. */
    method Invalidate(cl: seq<Cluster<T>>, lhs: nat, rhs: nat)
      requires lhs < |cl| && rhs < |cl|
      modifies this
      ensures resultCache == old(resultCache) - {KeyOf(cl, lhs, rhs)}
    {
      var a, b := lhs, rhs;
      if cl[a].id > cl[b].id {
        a, b := b, a;
      }
      resultCache := resultCache - {(cl[a].id, cl[b].id)};
    }
  }

  /** The metric may be called on any two of the clusters. */
  ghost predicate MetricDefinedOn<T>(metric: Metric<T>, cl: seq<Cluster<T>>)
  {
    forall i, j :: 0 <= i < |cl| && 0 <= j < |cl| ==> metric.requires(cl[i].elems, cl[j].elems)
  }

  lemma {:induction false} AllPairsReady<T>(metric: Metric<T>, cl: seq<Cluster<T>>, o: nat, i: nat)
    requires o < i && MetricDefinedOn(metric, cl)
    ensures ScanReady(metric, cl, PairsFrom(|cl|, o, i))
    decreases |cl| - o, |cl| - i
  {
    var n := |cl|;
    if o >= n {
    } else if i >= n {
      AllPairsReady(metric, cl, o + 1, o + 2);
    } else {
      AllPairsReady(metric, cl, o, i + 1);
      var ps := PairsFrom(n, o, i);
      assert ps == [(o, i)] + PairsFrom(n, o, i + 1);
      assert ps[1..] == PairsFrom(n, o, i + 1);
    }
  }

  /** The scan from (o, i) is the handler on (o, i) followed by the scan from (o, i + 1). */
  lemma ScanRowStep<T>(cache: map<CacheKey, real>, metric: Metric<T>, cl: seq<Cluster<T>>,
                       o: nat, i: nat, s: Selection)
    requires o < i < |cl| && MetricDefinedOn(metric, cl)
    ensures ScanReady(metric, cl, PairsFrom(|cl|, o, i))
    ensures ScanReady(metric, cl, PairsFrom(|cl|, o, i + 1))
    ensures Callable(metric, cl, o, i)
    ensures Scan(cache, metric, cl, PairsFrom(|cl|, o, i), s)
            == Scan(Handle(cache, metric, cl, o, i, s).cache, metric, cl, PairsFrom(|cl|, o, i + 1),
                    Handle(cache, metric, cl, o, i, s).selection)
  {
    AllPairsReady(metric, cl, o, i);
    AllPairsReady(metric, cl, o, i + 1);
    var ps := PairsFrom(|cl|, o, i);
    assert ps == [(o, i)] + PairsFrom(|cl|, o, i + 1);
    assert ps[1..] == PairsFrom(|cl|, o, i + 1);
  }

  /** After the last pair of row o the scan goes on with row o + 1. */
  lemma ScanRowEnd<T>(cache: map<CacheKey, real>, metric: Metric<T>, cl: seq<Cluster<T>>,
                      o: nat, s: Selection)
    requires o < |cl| && MetricDefinedOn(metric, cl)
    ensures ScanReady(metric, cl, PairsFrom(|cl|, o, |cl|))
    ensures ScanReady(metric, cl, PairsFrom(|cl|, o + 1, o + 2))
    ensures Scan(cache, metric, cl, PairsFrom(|cl|, o, |cl|), s)
            == Scan(cache, metric, cl, PairsFrom(|cl|, o + 1, o + 2), s)
  {
    AllPairsReady(metric, cl, o + 1, o + 2);
    assert PairsFrom(|cl|, o, |cl|) == PairsFrom(|cl|, o + 1, o + 2);
  }

  /** The handler on (o, i), (o, i + 1), ..., (o, n - 1): the inner loop from position i. */
  function ScanRowFrom<T>(cache: map<CacheKey, real>, metric: Metric<T>, cl: seq<Cluster<T>>,
                          o: nat, i: nat, s: Selection): Handled
    requires o < i && MetricDefinedOn(metric, cl)
    decreases |cl| - i
  {
    if i >= |cl| then Handled(cache, s)
    else
      assert Callable(metric, cl, o, i) by {
        assert metric.requires(cl[o].elems, cl[i].elems) && metric.requires(cl[i].elems, cl[o].elems);
      }
      var h := Handle(cache, metric, cl, o, i, s);
      ScanRowFrom(h.cache, metric, cl, o, i + 1, h.selection)
  }

  lemma ScanRowFromStep<T>(cache: map<CacheKey, real>, metric: Metric<T>, cl: seq<Cluster<T>>,
                           o: nat, i: nat, s: Selection)
    requires o < i < |cl| && MetricDefinedOn(metric, cl)
    ensures Callable(metric, cl, o, i)
    ensures ScanRowFrom(cache, metric, cl, o, i, s)
            == ScanRowFrom(Handle(cache, metric, cl, o, i, s).cache, metric, cl, o, i + 1,
                           Handle(cache, metric, cl, o, i, s).selection)
  {
  }

  /** The scan from (o, i) is the row from position i followed by the scan from row o + 1. */
  lemma {:induction false} ScanRowFromScan<T>(cache: map<CacheKey, real>, metric: Metric<T>,
                                              cl: seq<Cluster<T>>, o: nat, i: nat, s: Selection)
    requires o < i <= |cl| && MetricDefinedOn(metric, cl)
    ensures ScanReady(metric, cl, PairsFrom(|cl|, o, i))
    ensures ScanReady(metric, cl, PairsFrom(|cl|, o + 1, o + 2))
    ensures Scan(cache, metric, cl, PairsFrom(|cl|, o, i), s)
            == Scan(ScanRowFrom(cache, metric, cl, o, i, s).cache, metric, cl, PairsFrom(|cl|, o + 1, o + 2),
                    ScanRowFrom(cache, metric, cl, o, i, s).selection)
    decreases |cl| - i
  {
    if i == |cl| {
      ScanRowEnd(cache, metric, cl, o, s);
    } else {
      ScanRowStep(cache, metric, cl, o, i, s);
      ScanRowFromStep(cache, metric, cl, o, i, s);
      var h := Handle(cache, metric, cl, o, i, s);
      ScanRowFromScan(h.cache, metric, cl, o, i + 1, h.selection);
    }
  }

  /** The inner loop for outer position o: the handler on (o, o+1), ..., (o, n-1). */
  method ScanRow<T(==)>(handler: MetricHandler<T>, cl: seq<Cluster<T>>, o: nat, sel0: Selection)
    returns (sel: Selection)
    requires o < |cl| && MetricDefinedOn(handler.metric, cl)
    modifies handler
    ensures ScanReady(handler.metric, cl, PairsFrom(|cl|, o, o + 1))
    ensures ScanReady(handler.metric, cl, PairsFrom(|cl|, o + 1, o + 2))
    ensures Scan(old(handler.resultCache), handler.metric, cl, PairsFrom(|cl|, o, o + 1), sel0)
            == Scan(handler.resultCache, handler.metric, cl, PairsFrom(|cl|, o + 1, o + 2), sel)
  {
    var n := |cl|;
    var metric := handler.metric;
    ScanRowFromScan(handler.resultCache, metric, cl, o, o + 1, sel0);
    ghost var target := ScanRowFrom(handler.resultCache, metric, cl, o, o + 1, sel0);
    sel := sel0;
    var i := o + 1;
    while i < n
      invariant o < i <= n
      invariant target == ScanRowFrom(handler.resultCache, metric, cl, o, i, sel)
    {
      ScanRowFromStep(handler.resultCache, metric, cl, o, i, sel);
      ghost var h := Handle(handler.resultCache, metric, cl, o, i, sel);
      sel := handler.Call(cl, o, i, sel);
      assert handler.resultCache == h.cache && sel == h.selection;
      i := i + 1;
    }
  }

  /** The two nested loops over `clusters`, calling the handler on every pair. */
  method SelectPair<T(==)>(handler: MetricHandler<T>, cl: seq<Cluster<T>>) returns (sel: Selection)
    requires MetricDefinedOn(handler.metric, cl)
    modifies handler
    ensures ScanReady(handler.metric, cl, AllPairs(|cl|))
    ensures Handled(handler.resultCache, sel)
            == Scan(old(handler.resultCache), handler.metric, cl, AllPairs(|cl|), NoSelection)
  {
    var n := |cl|;
    var metric := handler.metric;
    AllPairsReady(metric, cl, 0, 1);
    ghost var target := Scan(handler.resultCache, metric, cl, AllPairs(n), NoSelection);
    sel := NoSelection;
    var o := 0;
    while o < n
      invariant o <= n
      invariant ScanReady(metric, cl, PairsFrom(n, o, o + 1))
      invariant target == Scan(handler.resultCache, metric, cl, PairsFrom(n, o, o + 1), sel)
    {
      sel := ScanRow(handler, cl, o, sel);
      o := o + 1;
    }
  }

  /** Every element is one of the input points, and there is at least one. */
  ghost predicate Drawn<T>(elems: seq<T>, points: seq<T>)
  {
    |elems| > 0 && forall x :: x in elems ==> x in points
  }

  /** What the loop needs of the metric: defined on any two non-empty clusters of input
      points, and below the fp maximum there, so that a pair is always selected. */
  ghost predicate MetricBounded<T(!new)>(points: seq<T>, metric: Metric<T>)
  {
    forall a, b :: Drawn(a, points) && Drawn(b, points) ==> metric.requires(a, b) && metric(a, b) < FpMax
  }

  /** With at least two clusters a pair is always selected: positions p < q, chosen as the
      first minimum over the pairs in loop order, and the cache stays consistent. */
  lemma ScanSelectsPair<T(!new)>(cache: map<CacheKey, real>, metric: Metric<T>, cl: seq<Cluster<T>>,
                           registry: map<nat, seq<T>>, points: seq<T>)
    requires |cl| >= 2 && IdsIncreasing(cl) && Registered(cl, registry)
    requires CacheConsistent(cache, metric, registry)
    requires forall i :: 0 <= i < |cl| ==> Drawn(cl[i].elems, points)
    requires MetricBounded(points, metric)
    ensures MetricDefinedOn(metric, cl) && OrderedPairs(metric, cl, AllPairs(|cl|))
    ensures ScanReady(metric, cl, AllPairs(|cl|))
    ensures var h := Scan(cache, metric, cl, AllPairs(|cl|), NoSelection);
      CacheConsistent(h.cache, metric, registry)
      && h.selection.first.Some? && h.selection.second.Some?
      && h.selection.first.value < h.selection.second.value < |cl|
      && FirstMinimum(metric, cl, AllPairs(|cl|), NoSelection, h.selection)
  {
    var ps := AllPairs(|cl|);
    AllPairsShape(|cl|);
    DrawnDefined(metric, cl, points);
    OrderedPairsReady(metric, cl, ps);
    ScanTransparent(cache, metric, cl, ps, NoSelection, registry);
    ScanFreshFirstMinimum(metric, cl, ps, NoSelection);
    var r := ScanFresh(metric, cl, ps, NoSelection);
    assert Drawn(cl[0].elems, points) && Drawn(cl[1].elems, points);
    assert PairValue(metric, cl, ps[0]) < FpMax;
    assert r.metric < NoSelection.metric;
    var t :| 0 <= t < |ps| && r == Selection(Some(ps[t].0), Some(ps[t].1), r.metric);
  }

  /** With two clusters or more the first pair is (0, 1), and every pair is ordered and in range. */
  lemma AllPairsShape(n: nat)
    requires n >= 2
    ensures |AllPairs(n)| > 0 && AllPairs(n)[0] == (0, 1)
    ensures forall t :: 0 <= t < |AllPairs(n)| ==> AllPairs(n)[t].0 < AllPairs(n)[t].1 < n
  {
    var ps := AllPairs(n);
    assert ps == [(0, 1)] + PairsFrom(n, 0, 2);
    PairsFromSpec(n, 0, 1);
    forall t | 0 <= t < |ps| ensures ps[t].0 < ps[t].1 < n {
      assert ps[t] in ps;
    }
  }

  /** A metric bounded on the input points is defined on any two clusters drawn from them. */
  lemma DrawnDefined<T(!new)>(metric: Metric<T>, cl: seq<Cluster<T>>, points: seq<T>)
    requires forall i :: 0 <= i < |cl| ==> Drawn(cl[i].elems, points)
    requires MetricBounded(points, metric)
    ensures MetricDefinedOn(metric, cl)
  {
    forall i, j | 0 <= i < |cl| && 0 <= j < |cl| ensures metric.requires(cl[i].elems, cl[j].elems) {
      assert Drawn(cl[i].elems, points) && Drawn(cl[j].elems, points);
    }
  }

  /** The number of leaves below a node. */
  function LeafCount<T>(n: Node<T>): nat
    decreases n, 1
  {
    if |n.edges| == 0 then 1 else EdgesLeafCount(n, |n.edges|)
  }

  function EdgesLeafCount<T>(n: Node<T>, k: nat): nat
    requires k <= |n.edges|
    decreases n, 0, k
  {
    if k == 0 then 0 else EdgesLeafCount(n, k - 1) + LeafCount(n.edges[k - 1])
  }

  /** All elements of all clusters. */
  function Elements<T>(cl: seq<Cluster<T>>): multiset<T>
  {
    if cl == [] then multiset{} else multiset(cl[0].elems) + Elements(cl[1..])
  }

  lemma {:induction false} ElementsConcat<T>(a: seq<Cluster<T>>, b: seq<Cluster<T>>)
    ensures Elements(a + b) == Elements(a) + Elements(b)
  {
    if a != [] {
      assert (a + b)[0] == a[0];
      assert (a + b)[1..] == a[1..] + b;
      ElementsConcat(a[1..], b);
    } else {
      assert a + b == b;
    }
  }

  function IdSet<T>(cl: seq<Cluster<T>>): set<nat>
  {
    set i | 0 <= i < |cl| :: cl[i].id
  }

  /** `clusters` after erasing the entries at positions p < q. */
  function Without<T>(cl: seq<Cluster<T>>, p: nat, q: nat): (r: seq<Cluster<T>>)
    requires p < q < |cl|
    ensures |r| == |cl| - 2
    ensures forall i :: 0 <= i < |r| ==> r[i] == cl[if i < p then i else if i < q - 1 then i + 1 else i + 2]
  {
    cl[..p] + cl[p + 1..q] + cl[q + 1..]
  }

  lemma ElementsSingleton<T>(c: Cluster<T>)
    ensures Elements([c]) == multiset(c.elems)
  {
    assert [c][1..] == [];
  }

  lemma ElementsRemove<T>(cl: seq<Cluster<T>>, i: nat)
    requires i < |cl|
    ensures Elements(cl) == Elements(cl[..i] + cl[i + 1..]) + multiset(cl[i].elems)
  {
    var before, after := cl[..i], cl[i + 1..];
    assert cl == before + ([cl[i]] + after);
    ElementsConcat(before, [cl[i]] + after);
    ElementsConcat([cl[i]], after);
    ElementsConcat(before, after);
    ElementsSingleton(cl[i]);
  }

  /** Erasing q and then p is erasing both. */
  lemma WithoutTwice<T>(cl: seq<Cluster<T>>, p: nat, q: nat)
    requires p < q < |cl|
    ensures var r1 := cl[..q] + cl[q + 1..];
      p < |r1| && r1[p] == cl[p] && Without(cl, p, q) == r1[..p] + r1[p + 1..]
  {
    var r1 := cl[..q] + cl[q + 1..];
    assert r1[..p] == cl[..p];
    assert r1[p + 1..] == cl[p + 1..q] + cl[q + 1..];
  }

  lemma ElementsWithout<T>(cl: seq<Cluster<T>>, p: nat, q: nat)
    requires p < q < |cl|
    ensures Elements(cl) == Elements(Without(cl, p, q)) + multiset(cl[p].elems) + multiset(cl[q].elems)
  {
    var r1 := cl[..q] + cl[q + 1..];
    WithoutTwice(cl, p, q);
    ElementsRemove(cl, q);
    ElementsRemove(r1, p);
  }

  lemma IdSetWithout<T>(cl: seq<Cluster<T>>, p: nat, q: nat)
    requires p < q < |cl| && IdsIncreasing(cl)
    ensures IdSet(Without(cl, p, q)) == IdSet(cl) - {cl[p].id, cl[q].id}
  {
    var w := Without(cl, p, q);
    forall x | x in IdSet(cl) - {cl[p].id, cl[q].id} ensures x in IdSet(w) {
      var j :| 0 <= j < |cl| && cl[j].id == x;
      var i := if j < p then j else if j < q then j - 1 else j - 2;
      assert w[i] == cl[j];
    }
  }

  /** Ids increase along the iteration order and never exceed the sequence counter; each
      cluster is a non-empty collection of input points; the counter has advanced once per
      merge since it was set to k; before any merge the ids are the input positions, and
      after one the last merged cluster sits at the end. */
  ghost predicate ClustersShape<T>(points: seq<T>, cl: seq<Cluster<T>>, sequenceIdx: nat)
  {
    var k := |points|;
    IdsIncreasing(cl)
    && (forall i :: 0 <= i < |cl| ==> cl[i].id <= sequenceIdx && Drawn(cl[i].elems, points))
    && k <= sequenceIdx && |cl| + (sequenceIdx - k) == k
    && (k > 0 ==> |cl| > 0)
    && (sequenceIdx == k ==> forall i :: 0 <= i < |cl| ==> cl[i].id == i)
    && (sequenceIdx > k ==> |cl| > 0 && cl[|cl| - 1].id == sequenceIdx)
  }

  /** Every cluster has a node with its id whose leaves are its elements, and no other node
      is left in the map. */
  ghost predicate NodesMatch<T>(cl: seq<Cluster<T>>, nodes: map<nat, Node<NodeData>>)
  {
    nodes.Keys == IdSet(cl)
    && forall i :: 0 <= i < |cl| ==>
         cl[i].id in nodes && nodes[cl[i].id].value.seqId == cl[i].id
         && LeafCount(nodes[cl[i].id]) == |cl[i].elems|
  }

  /** Every id ever created is registered with its elements, and every cached value is the
      metric of the two registered clusters its key names. */
  ghost predicate CacheSound<T>(points: seq<T>, cl: seq<Cluster<T>>, sequenceIdx: nat, metric: Metric<T>,
                                cache: map<CacheKey, real>, registry: map<nat, seq<T>>)
  {
    Registered(cl, registry)
    && (forall id :: id in registry ==> id <= sequenceIdx && Drawn(registry[id], points))
    && CacheConsistent(cache, metric, registry)
  }

  /** The state of the clustering loop; no point is lost or added. */
  ghost predicate LoopInvariant<T>(points: seq<T>, cl: seq<Cluster<T>>, nodes: map<nat, Node<NodeData>>,
                                   sequenceIdx: nat, metric: Metric<T>, cache: map<CacheKey, real>,
                                   registry: map<nat, seq<T>>)
  {
    ClustersShape(points, cl, sequenceIdx) && NodesMatch(cl, nodes)
    && Elements(cl) == multiset(points)
    && CacheSound(points, cl, sequenceIdx, metric, cache, registry)
  }

  /** The clusters after a merge: the two selected ones erased, the merged one, holding the
      second cluster's elements followed by the first's, added last. */
  function Merged<T>(cl: seq<Cluster<T>>, p: nat, q: nat, newId: nat): seq<Cluster<T>>
    requires p < q < |cl|
  {
    Without(cl, p, q) + [Cluster(newId, cl[q].elems + cl[p].elems)]
  }

  /** The nodes after a merge: the new node (new id, metric) with the first and second node
      as its edges, both of which leave the map. */
  function MergedNodes<T>(nodes: map<nat, Node<NodeData>>, cl: seq<Cluster<T>>, p: nat, q: nat,
                          newId: nat, metric: real): map<nat, Node<NodeData>>
    requires p < q < |cl| && cl[p].id in nodes && cl[q].id in nodes
  {
    (nodes - {cl[p].id, cl[q].id})[newId := Node(NodeData(newId, metric), [nodes[cl[p].id], nodes[cl[q].id]])]
  }

  /** Position i of the merged clusters, other than the last, is the old position. */
  function OldPosition(p: nat, q: nat, i: nat): nat
  {
    if i < p then i else if i < q - 1 then i + 1 else i + 2
  }

  lemma MergedAt<T>(cl: seq<Cluster<T>>, p: nat, q: nat, newId: nat, i: nat)
    requires p < q < |cl| && i < |cl| - 2
    ensures OldPosition(p, q, i) < |cl| && OldPosition(p, q, i) != p && OldPosition(p, q, i) != q
    ensures Merged(cl, p, q, newId)[i] == cl[OldPosition(p, q, i)]
  {
  }

  lemma MergeKeepsOrder<T>(cl: seq<Cluster<T>>, sequenceIdx: nat, p: nat, q: nat)
    requires IdsIncreasing(cl) && p < q < |cl|
    requires forall i :: 0 <= i < |cl| ==> cl[i].id <= sequenceIdx
    ensures IdsIncreasing(Merged(cl, p, q, sequenceIdx + 1))
  {
    var newId := sequenceIdx + 1;
    var cl' := Merged(cl, p, q, newId);
    forall i, j | 0 <= i < j < |cl'| ensures cl'[i].id < cl'[j].id {
      MergedAt(cl, p, q, newId, i);
      if j < |cl| - 2 {
        MergedAt(cl, p, q, newId, j);
      }
    }
  }

  lemma MergeKeepsDrawn<T>(points: seq<T>, cl: seq<Cluster<T>>, sequenceIdx: nat, p: nat, q: nat)
    requires p < q < |cl|
    requires forall i :: 0 <= i < |cl| ==> cl[i].id <= sequenceIdx && Drawn(cl[i].elems, points)
    ensures var cl' := Merged(cl, p, q, sequenceIdx + 1);
      forall i :: 0 <= i < |cl'| ==> cl'[i].id <= sequenceIdx + 1 && Drawn(cl'[i].elems, points)
  {
    var newId := sequenceIdx + 1;
    var cl' := Merged(cl, p, q, newId);
    assert Drawn(cl[p].elems, points) && Drawn(cl[q].elems, points);
    forall i | 0 <= i < |cl'| ensures cl'[i].id <= newId && Drawn(cl'[i].elems, points) {
      if i < |cl| - 2 {
        MergedAt(cl, p, q, newId, i);
      }
    }
  }

  lemma MergeKeepsShape<T>(points: seq<T>, cl: seq<Cluster<T>>, sequenceIdx: nat, p: nat, q: nat)
    requires ClustersShape(points, cl, sequenceIdx) && p < q < |cl|
    ensures ClustersShape(points, Merged(cl, p, q, sequenceIdx + 1), sequenceIdx + 1)
  {
    MergeKeepsOrder(cl, sequenceIdx, p, q);
    MergeKeepsDrawn(points, cl, sequenceIdx, p, q);
    var cl' := Merged(cl, p, q, sequenceIdx + 1);
    assert cl'[|cl'| - 1].id == sequenceIdx + 1;
  }

  lemma IdSetMerged<T>(cl: seq<Cluster<T>>, p: nat, q: nat, newId: nat)
    requires IdsIncreasing(cl) && p < q < |cl|
    ensures IdSet(Merged(cl, p, q, newId)) == IdSet(cl) - {cl[p].id, cl[q].id} + {newId}
  {
    var cl' := Merged(cl, p, q, newId);
    var w := Without(cl, p, q);
    IdSetWithout(cl, p, q);
    forall x | x in IdSet(cl') ensures x in IdSet(w) + {newId} {
      var i :| 0 <= i < |cl'| && cl'[i].id == x;
      if i < |w| { assert cl'[i] == w[i]; }
    }
    forall x | x in IdSet(w) + {newId} ensures x in IdSet(cl') {
      if x == newId {
        assert cl'[|w|].id == newId;
      } else {
        var i :| 0 <= i < |w| && w[i].id == x;
        assert cl'[i] == w[i];
      }
    }
  }

  lemma MergeKeepsNodes<T>(cl: seq<Cluster<T>>, nodes: map<nat, Node<NodeData>>,
                           sequenceIdx: nat, p: nat, q: nat, metric: real)
    requires IdsIncreasing(cl) && p < q < |cl| && NodesMatch(cl, nodes)
    requires forall i :: 0 <= i < |cl| ==> cl[i].id <= sequenceIdx
    ensures NodesMatch(Merged(cl, p, q, sequenceIdx + 1),
                       MergedNodes(nodes, cl, p, q, sequenceIdx + 1, metric))
  {
    var newId := sequenceIdx + 1;
    var cl' := Merged(cl, p, q, newId);
    var nodes' := MergedNodes(nodes, cl, p, q, newId, metric);
    IdSetMerged(cl, p, q, newId);
    var newNode := Node(NodeData(newId, metric), [nodes[cl[p].id], nodes[cl[q].id]]);
    assert EdgesLeafCount(newNode, 1) == LeafCount(nodes[cl[p].id]);
    assert LeafCount(newNode) == LeafCount(nodes[cl[p].id]) + LeafCount(nodes[cl[q].id]);
    forall i | 0 <= i < |cl'|
      ensures cl'[i].id in nodes' && nodes'[cl'[i].id].value.seqId == cl'[i].id
        && LeafCount(nodes'[cl'[i].id]) == |cl'[i].elems|
    {
      if i < |cl| - 2 {
        MergedAt(cl, p, q, newId, i);
        var i0 := OldPosition(p, q, i);
        assert cl[i0].id != cl[p].id && cl[i0].id != cl[q].id && cl[i0].id != newId;
      }
    }
  }

  lemma MergeKeepsElements<T>(cl: seq<Cluster<T>>, p: nat, q: nat, newId: nat)
    requires p < q < |cl|
    ensures Elements(Merged(cl, p, q, newId)) == Elements(cl)
  {
    ElementsWithout(cl, p, q);
    ElementsConcat(Without(cl, p, q), [Cluster(newId, cl[q].elems + cl[p].elems)]);
    ElementsSingleton(Cluster(newId, cl[q].elems + cl[p].elems));
  }

  lemma MergeKeepsCache<T>(points: seq<T>, cl: seq<Cluster<T>>, sequenceIdx: nat, metric: Metric<T>,
                           cache: map<CacheKey, real>, registry: map<nat, seq<T>>, p: nat, q: nat)
    requires ClustersShape(points, cl, sequenceIdx) && p < q < |cl|
    requires CacheSound(points, cl, sequenceIdx, metric, cache, registry)
    ensures CacheSound(points, Merged(cl, p, q, sequenceIdx + 1), sequenceIdx + 1, metric,
                       cache - {(cl[p].id, cl[q].id)},
                       registry[sequenceIdx + 1 := cl[q].elems + cl[p].elems])
  {
    var newId := sequenceIdx + 1;
    var merged := cl[q].elems + cl[p].elems;
    var cl' := Merged(cl, p, q, newId);
    var registry' := registry[newId := merged];
    var cache' := cache - {(cl[p].id, cl[q].id)};
    assert newId !in registry;
    forall i | 0 <= i < |cl'| ensures cl'[i].id in registry' && registry'[cl'[i].id] == cl'[i].elems {
      if i < |cl| - 2 {
        MergedAt(cl, p, q, newId, i);
      }
    }
    assert Drawn(cl[p].elems, points) && Drawn(cl[q].elems, points);
    assert Drawn(merged, points);
    forall key | key in cache'
      ensures key.0 in registry' && key.1 in registry'
        && metric.requires(registry'[key.0], registry'[key.1])
        && cache'[key] == metric(registry'[key.0], registry'[key.1])
    {
      assert key in cache;
    }
  }

  /** The four parts of the loop state survive a merge of the selected positions p < q. */
  lemma MergeKeepsInvariant<T>(points: seq<T>, cl: seq<Cluster<T>>, nodes: map<nat, Node<NodeData>>,
                               sequenceIdx: nat, metric: Metric<T>, cache: map<CacheKey, real>,
                               registry: map<nat, seq<T>>, p: nat, q: nat, value: real)
    requires LoopInvariant(points, cl, nodes, sequenceIdx, metric, cache, registry) && p < q < |cl|
    ensures LoopInvariant(points, Merged(cl, p, q, sequenceIdx + 1),
                          MergedNodes(nodes, cl, p, q, sequenceIdx + 1, value), sequenceIdx + 1,
                          metric, cache - {(cl[p].id, cl[q].id)},
                          registry[sequenceIdx + 1 := cl[q].elems + cl[p].elems])
  {
    MergeKeepsShape(points, cl, sequenceIdx, p, q);
    MergeKeepsNodes(cl, nodes, sequenceIdx, p, q, value);
    MergeKeepsElements(cl, p, q, sequenceIdx + 1);
    MergeKeepsCache(points, cl, sequenceIdx, metric, cache, registry, p, q);
  }

  /** One merge, as the loop body performs it after the selection: a new node with the next
      sequence id, the two selected clusters replaced by their union, the pair's cache entry
      dropped. The source erases the two clusters through iterators that the insertion of the
      new cluster may have invalidated by a rehash; the reading chosen here is erasure by id. */
  method MergeStep<T(==)>(handler: MetricHandler<T>, cl: seq<Cluster<T>>,
                          nodes: map<nat, Node<NodeData>>, sequenceIdx: nat, sel: Selection)
    returns (cl': seq<Cluster<T>>, nodes': map<nat, Node<NodeData>>, sequenceIdx': nat)
    requires IdsIncreasing(cl) && NodesMatch(cl, nodes)
    requires forall i :: 0 <= i < |cl| ==> cl[i].id <= sequenceIdx
    requires sel.first.Some? && sel.second.Some? && sel.first.value < sel.second.value < |cl|
    modifies handler
    ensures sequenceIdx' == sequenceIdx + 1
    ensures cl' == Merged(cl, sel.first.value, sel.second.value, sequenceIdx')
    ensures nodes' == MergedNodes(nodes, cl, sel.first.value, sel.second.value, sequenceIdx', sel.metric)
    ensures handler.resultCache == old(handler.resultCache) - {(cl[sel.first.value].id, cl[sel.second.value].id)}
  {
    var p, q := sel.first.value, sel.second.value;
    var firstKey, secondKey := cl[p].id, cl[q].id;
    sequenceIdx' := sequenceIdx + 1;
    var newCluster := sequenceIdx';
    nodes' := nodes[newCluster := Node(NodeData(newCluster, sel.metric), [nodes[firstKey], nodes[secondKey]])];
    nodes' := nodes' - {firstKey};
    nodes' := nodes' - {secondKey};
    var merged := cl[q].elems + cl[p].elems;
    cl' := Without(cl, p, q) + [Cluster(newCluster, merged)];
    handler.Invalidate(cl, p, q);
    assert newCluster != firstKey && newCluster != secondKey;
  }

  /** The cluster and node maps as the initialisation loop leaves them: point i becomes
      cluster i and a leaf node with data (i, 0). */
  lemma InitialState<T>(points: seq<T>, cl: seq<Cluster<T>>, nodes: map<nat, Node<NodeData>>,
                        metric: Metric<T>, registry: map<nat, seq<T>>)
    requires |cl| == |points|
    requires forall i :: 0 <= i < |cl| ==> cl[i] == Cluster(i, [points[i]])
    requires nodes == map i | 0 <= i < |cl| :: MakeLeaf(NodeData(i, 0.0))
    requires registry == map i | 0 <= i < |cl| :: [points[i]]
    requires Elements(cl) == multiset(points)
    ensures LoopInvariant(points, cl, nodes, |points|, metric, map[], registry)
  {
    InitialShape(points, cl);
    InitialNodes(cl, nodes);
    InitialRegistry(points, cl, metric, registry);
  }

  lemma InitialShape<T>(points: seq<T>, cl: seq<Cluster<T>>)
    requires |cl| == |points|
    requires forall i :: 0 <= i < |cl| ==> cl[i] == Cluster(i, [points[i]])
    ensures ClustersShape(points, cl, |points|)
  {
    forall i | 0 <= i < |cl| ensures Drawn(cl[i].elems, points) {
      assert points[i] in points;
    }
  }

  lemma InitialNodes<T>(cl: seq<Cluster<T>>, nodes: map<nat, Node<NodeData>>)
    requires forall i :: 0 <= i < |cl| ==> cl[i].id == i && |cl[i].elems| == 1
    requires nodes == map i | 0 <= i < |cl| :: MakeLeaf(NodeData(i, 0.0))
    ensures NodesMatch(cl, nodes)
  {
    assert nodes.Keys == IdSet(cl) by {
      forall x | x in nodes.Keys ensures x in IdSet(cl) {
        assert cl[x].id == x;
      }
    }
  }

  lemma InitialRegistry<T>(points: seq<T>, cl: seq<Cluster<T>>, metric: Metric<T>, registry: map<nat, seq<T>>)
    requires |cl| == |points|
    requires forall i :: 0 <= i < |cl| ==> cl[i] == Cluster(i, [points[i]])
    requires registry == map i | 0 <= i < |cl| :: [points[i]]
    ensures CacheSound(points, cl, |points|, metric, map[], registry)
  {
    forall id | id in registry ensures id <= |points| && Drawn(registry[id], points) {
      assert points[id] in points;
    }
  }

  const RootMessage: string := "One remaining root node should be in graph"

  /** The root's sequence id for k points: the k - 1 merges draw the ids k+1, ..., 2k-1. */
  function RootId(k: nat): (id: nat)
    ensures k >= 2 ==> id == k + (k - 1)
  {
    if k <= 1 then 0 else 2 * k - 1
  }

  /** The leaf nodes (i, 0) for the first k points. */
  function LeafNodes(k: nat): map<nat, Node<NodeData>>
  {
    map i | 0 <= i < k :: MakeLeaf(NodeData(i, 0.0))
  }

  /** The clusters and nodes built for the first k points. */
  ghost predicate InitialPrefix<T>(points: seq<T>, k: nat, clusters: seq<Cluster<T>>,
                                   nodes: map<nat, Node<NodeData>>)
  {
    k <= |points| && |clusters| == k
    && (forall i :: 0 <= i < k ==> clusters[i] == Cluster(i, [points[i]]))
    && nodes == LeafNodes(k)
    && Elements(clusters) == multiset(points[..k])
  }

  lemma InitialPrefixStep<T>(points: seq<T>, k: nat, clusters: seq<Cluster<T>>,
                             nodes: map<nat, Node<NodeData>>)
    requires InitialPrefix(points, k, clusters, nodes) && k < |points|
    ensures InitialPrefix(points, k + 1, clusters + [Cluster(k, [points[k]])],
                          nodes[k := MakeLeaf(NodeData(k, 0.0))])
  {
    var c := Cluster(k, [points[k]]);
    ElementsConcat(clusters, [c]);
    ElementsSingleton(c);
    assert points[..k + 1] == points[..k] + [points[k]];
  }

  /** The initialisation loop: point i becomes cluster i, with a leaf node (i, 0). */
  method InitialClusters<T>(points: seq<T>) returns (clusters: seq<Cluster<T>>, nodes: map<nat, Node<NodeData>>)
    ensures |clusters| == |points|
    ensures forall i :: 0 <= i < |clusters| ==> clusters[i] == Cluster(i, [points[i]])
    ensures nodes == map i | 0 <= i < |points| :: MakeLeaf(NodeData(i, 0.0))
    ensures Elements(clusters) == multiset(points)
  {
    clusters := [];
    nodes := map[];
    var clustSeq := 0;
    while clustSeq < |points|
      invariant InitialPrefix(points, clustSeq, clusters, nodes)
    {
      InitialPrefixStep(points, clustSeq, clusters, nodes);
      clusters := clusters + [Cluster(clustSeq, [points[clustSeq]])];
      nodes := nodes[clustSeq := MakeLeaf(NodeData(clustSeq, 0.0))];
      clustSeq := clustSeq + 1;
    }
    assert points[..clustSeq] == points;
  }

  /** The selection half of a loop iteration: the pair scan with the handler, whose result
      is the first minimal pair p < q; the cache stays consistent. */
  method SelectBest<T(==,!new)>(handler: MetricHandler<T>, points: seq<T>, cl: seq<Cluster<T>>,
                                ghost registry: map<nat, seq<T>>)
    returns (sel: Selection)
    requires |cl| >= 2 && IdsIncreasing(cl) && Registered(cl, registry)
    requires CacheConsistent(handler.resultCache, handler.metric, registry)
    requires forall i :: 0 <= i < |cl| ==> Drawn(cl[i].elems, points)
    requires MetricBounded(points, handler.metric)
    modifies handler
    ensures OrderedPairs(handler.metric, cl, AllPairs(|cl|))
    ensures sel.first.Some? && sel.second.Some? && sel.first.value < sel.second.value < |cl|
    ensures FirstMinimum(handler.metric, cl, AllPairs(|cl|), NoSelection, sel)
    ensures CacheConsistent(handler.resultCache, handler.metric, registry)
  {
    ScanSelectsPair(handler.resultCache, handler.metric, cl, registry, points);
    sel := SelectPair(handler, cl);
  }

  /** Replacing a consistent cache by another consistent one keeps the loop state. */
  lemma NewCacheKeepsInvariant<T>(points: seq<T>, cl: seq<Cluster<T>>, nodes: map<nat, Node<NodeData>>,
                                  sequenceIdx: nat, metric: Metric<T>, cache: map<CacheKey, real>,
                                  cache': map<CacheKey, real>, registry: map<nat, seq<T>>)
    requires LoopInvariant(points, cl, nodes, sequenceIdx, metric, cache, registry)
    requires CacheConsistent(cache', metric, registry)
    ensures LoopInvariant(points, cl, nodes, sequenceIdx, metric, cache', registry)
  {
  }

  /** The loop state only depends on the values it is given. */
  lemma LoopInvariantCongruent<T>(points: seq<T>, cl: seq<Cluster<T>>, cl': seq<Cluster<T>>,
                                  nodes: map<nat, Node<NodeData>>, nodes': map<nat, Node<NodeData>>,
                                  sequenceIdx: nat, sequenceIdx': nat, metric: Metric<T>,
                                  cache: map<CacheKey, real>, cache': map<CacheKey, real>,
                                  registry: map<nat, seq<T>>)
    requires LoopInvariant(points, cl, nodes, sequenceIdx, metric, cache, registry)
    requires cl == cl' && nodes == nodes' && sequenceIdx == sequenceIdx' && cache == cache'
    ensures LoopInvariant(points, cl', nodes', sequenceIdx', metric, cache', registry)
  {
  }

  /** One iteration of the clustering loop: select the first minimal pair and merge it. */
  method MergeBestPair<T(==,!new)>(handler: MetricHandler<T>, points: seq<T>, cl: seq<Cluster<T>>,
                                   nodes: map<nat, Node<NodeData>>, sequenceIdx: nat,
                                   ghost registry: map<nat, seq<T>>)
    returns (cl': seq<Cluster<T>>, nodes': map<nat, Node<NodeData>>, sequenceIdx': nat,
             ghost registry': map<nat, seq<T>>, sel: Selection)
    requires MetricBounded(points, handler.metric) && |cl| > 1
    requires LoopInvariant(points, cl, nodes, sequenceIdx, handler.metric, handler.resultCache, registry)
    modifies handler
    ensures OrderedPairs(handler.metric, cl, AllPairs(|cl|))
    ensures FirstMinimum(handler.metric, cl, AllPairs(|cl|), NoSelection, sel)
    ensures sel.first.Some? && sel.second.Some? && sel.first.value < sel.second.value < |cl|
    ensures cl' == Merged(cl, sel.first.value, sel.second.value, sequenceIdx + 1)
    ensures sequenceIdx' == sequenceIdx + 1 && |cl'| == |cl| - 1
    ensures LoopInvariant(points, cl', nodes', sequenceIdx', handler.metric, handler.resultCache, registry')
  {
    ghost var cache0 := handler.resultCache;
    sel := SelectBest(handler, points, cl, registry);
    ghost var cache1 := handler.resultCache;
    NewCacheKeepsInvariant(points, cl, nodes, sequenceIdx, handler.metric, cache0, cache1, registry);
    cl', nodes', sequenceIdx' := MergeStep(handler, cl, nodes, sequenceIdx, sel);
    ghost var p, q := sel.first.value, sel.second.value;
    registry' := registry[sequenceIdx + 1 := cl[q].elems + cl[p].elems];
    MergeKeepsInvariant(points, cl, nodes, sequenceIdx, handler.metric, cache1, registry, p, q, sel.metric);
    LoopInvariantCongruent(points, Merged(cl, p, q, sequenceIdx + 1), cl',
                           MergedNodes(nodes, cl, p, q, sequenceIdx + 1, sel.metric), nodes',
                           sequenceIdx + 1, sequenceIdx', handler.metric,
                           cache1 - {(cl[p].id, cl[q].id)}, handler.resultCache, registry');
  }

  /** `hierarchical_clustering(start, end, metric)`. */
  method HierarchicalClustering<T(==,!new)>(points: seq<T>, metric: Metric<T>)
    returns (r: Result<Node<NodeData>>)
    requires MetricBounded(points, metric)
    ensures |points| == 0 <==> r == Err(RootMessage)
    ensures |points| > 0 ==> r.Ok? && r.value.value.seqId == RootId(|points|)
    ensures r.Ok? ==> LeafCount(r.value) == |points|
  {
    var sequenceIdx: nat := 0;
    var k := |points|;
    var handler := new MetricHandler(metric);
    var clusters, nodes := InitialClusters(points);
    ghost var registry: map<nat, seq<T>> := map i | 0 <= i < k :: [points[i]];
    sequenceIdx := sequenceIdx + k;
    InitialState(points, clusters, nodes, metric, registry);

    while |clusters| > 1
      invariant handler.metric == metric
      invariant LoopInvariant(points, clusters, nodes, sequenceIdx, metric, handler.resultCache, registry)
      decreases |clusters|
    {
      var sel;
      clusters, nodes, sequenceIdx, registry, sel := MergeBestPair(handler, points, clusters, nodes, sequenceIdx, registry);
    }

    RootFacts(points, clusters, nodes, sequenceIdx, metric, handler.resultCache, registry);
    if |nodes| != 1 {
      return Err(RootMessage);
    }
    var id :| id in nodes;
    r := Ok(nodes[id]);
  }

  /** What the finished loop leaves: no node for no points, otherwise exactly one node, the
      root, with every point below it. */
  lemma RootFacts<T>(points: seq<T>, cl: seq<Cluster<T>>, nodes: map<nat, Node<NodeData>>,
                     sequenceIdx: nat, metric: Metric<T>, cache: map<CacheKey, real>,
                     registry: map<nat, seq<T>>)
    requires LoopInvariant(points, cl, nodes, sequenceIdx, metric, cache, registry) && |cl| <= 1
    ensures |points| == 0 <==> |nodes| == 0
    ensures |points| > 0 ==> |nodes| == 1
    ensures forall id :: |points| > 0 && id in nodes ==>
      nodes[id].value.seqId == RootId(|points|) && LeafCount(nodes[id]) == |points|
  {
    if |points| == 0 {
      assert IdSet(cl) == {};
      assert nodes == map[];
    } else {
      assert |cl| == 1;
      assert IdSet(cl) == {cl[0].id};
      assert nodes.Keys == {cl[0].id};
      assert |nodes.Keys| == 1;
      assert Elements(cl) == multiset(cl[0].elems) by {
        assert cl[1..] == [];
      }
      assert |multiset(cl[0].elems)| == |points|;
    }
  }
}
