/** Depth-first traversal of a graph with a visited set (util/graph/visitor.hpp).
    The graph is a table of nodes whose edges are references into it, so edges may share a
    node and paths may form cycles. The visitor callback is represented by the sequence of
    references it is applied to, in application order; the `unordered_set<graph_node>` of
    visited nodes, which hashes and compares nodes shallowly, is a set of node keys. */
module Visitor {
  import opened GraphNode

  type NodeKey<T> = (T, seq<T>)

  /** The key the visited set stores for the node at r: what node equality compares. */
  function CellKey<T>(g: Graph<T>, r: Ref): NodeKey<T>
    requires Closed(g) && r in g
  {
    Key(Shallow(g, r))
  }

  /** Two nodes of the table share a key exactly when node equality holds between them. */
  lemma CellKeyIffEqual<T>(g: Graph<T>, a: Ref, b: Ref)
    requires Closed(g) && a in g && b in g
    ensures CellKey(g, a) == CellKey(g, b) <==> ShallowEqual(Shallow(g, a), Shallow(g, b))
  {
    ShallowEqualIffSameKey(Shallow(g, a), Shallow(g, b));
  }

  /** The key of every node of the table, as the visited set stores it. */
  function KeyTable<T>(g: Graph<T>): (keys: map<Ref, NodeKey<T>>)
    requires Closed(g)
    ensures keys.Keys == g.Keys
    ensures forall r :: r in g ==> keys[r] == CellKey(g, r)
  {
    map r | r in g :: CellKey(g, r)
  }

  /** The traversal below is written for any table of keys that covers the graph; `Visit`
      uses `KeyTable`, so that two nodes share a key exactly when they are equal. */
  predicate Keyed<T, K(==)>(g: Graph<T>, keys: map<Ref, K>)
  {
    Closed(g) && g.Keys <= keys.Keys
  }

  /** The number of keys not yet visited: what every step of a traversal lowers. */
  function Unseen<K(==)>(keys: map<Ref, K>, visited: set<K>): nat
  {
    |keys.Values - visited|
  }

  lemma {:induction false} SubsetCard<X>(a: set<X>, b: set<X>)
    requires a <= b
    ensures |a| <= |b|
    decreases |a|
  {
    if a != {} {
      var x :| x in a;
      SubsetCard(a - {x}, b - {x});
    }
  }

  /** Visiting more keys never raises the measure. */
  lemma UnseenMonotone<K>(keys: map<Ref, K>, v: set<K>, v': set<K>)
    requires v <= v'
    ensures Unseen(keys, v') <= Unseen(keys, v)
  {
    SubsetCard(keys.Values - v', keys.Values - v);
  }

  /** Marking the node at r visited lowers the measure exactly when its key was unvisited. */
  lemma UnseenStep<K>(keys: map<Ref, K>, v: set<K>, r: Ref)
    requires r in keys
    ensures keys[r] in v ==> Unseen(keys, v + {keys[r]}) == Unseen(keys, v)
    ensures keys[r] !in v ==> Unseen(keys, v + {keys[r]}) < Unseen(keys, v)
  {
    var k := keys[r];
    assert k in keys.Values;
    if k in v {
      assert v + {k} == v;
    } else {
      var rest := keys.Values - (v + {k});
      assert keys.Values - v == rest + {k};
    }
  }

  /** The callback trace of a traversal and the visited set it leaves behind. */
  datatype Walk<K(==)> = Walk(order: seq<Ref>, visited: set<K>)

  /** `visit_depth_first(n, visitor, visited)`: apply the visitor to n, mark n visited and
      descend into every child not yet visited, in edge order. A call either starts on an
      unvisited node, or marks nothing new before it descends, which orders the calls. */
  function Dfs<T, K(==)>(g: Graph<T>, keys: map<Ref, K>, r: Ref, visited: set<K>): (w: Walk<K>)
    requires Keyed(g, keys) && r in g
    ensures visited + {keys[r]} <= w.visited
    ensures InGraph(g, w.order)
    decreases Unseen(keys, visited), if keys[r] in visited then 2 else 0
  {
    UnseenStep(keys, visited, r);
    var rest := DfsEdges(g, keys, r, 0, visited + {keys[r]});
    Walk([r] + rest.order, rest.visited)
  }

  /** The loop over the edges of the node at r, from edge i on. */
  function DfsEdges<T, K(==)>(g: Graph<T>, keys: map<Ref, K>, r: Ref, i: nat, visited: set<K>): (w: Walk<K>)
    requires Keyed(g, keys) && r in g && i <= |g[r].edges|
    ensures visited <= w.visited
    ensures InGraph(g, w.order)
    decreases Unseen(keys, visited), 1, |g[r].edges| - i
  {
    if i == |g[r].edges| then Walk([], visited)
    else
      var e := g[r].edges[i];
      if keys[e] in visited then DfsEdges(g, keys, r, i + 1, visited)
      else
        var sub := Dfs(g, keys, e, visited);
        UnseenMonotone(keys, visited, sub.visited);
        var rest := DfsEdges(g, keys, r, i + 1, sub.visited);
        Walk(sub.order + rest.order, rest.visited)
  }

  /** Every reference in s names a node of the table. */
  predicate InGraph<T>(g: Graph<T>, s: seq<Ref>)
  {
    forall k :: 0 <= k < |s| ==> s[k] in g
  }

  /** The keys of the nodes at the references in s. */
  function KeySet<K(==)>(keys: map<Ref, K>, s: seq<Ref>): set<K>
    requires forall k :: 0 <= k < |s| ==> s[k] in keys
  {
    set k | 0 <= k < |s| :: keys[s[k]]
  }

  /** No two nodes in s share a key. */
  predicate DistinctKeys<K(==)>(keys: map<Ref, K>, s: seq<Ref>)
    requires forall k :: 0 <= k < |s| ==> s[k] in keys
  {
    forall i, j :: 0 <= i < j < |s| ==> keys[s[i]] != keys[s[j]]
  }

  /** Every edge of every node in s leads to a node whose key is in the set. */
  predicate EdgesCovered<T, K(==)>(g: Graph<T>, keys: map<Ref, K>, s: seq<Ref>, visited: set<K>)
    requires Keyed(g, keys) && InGraph(g, s)
  {
    forall k, j :: 0 <= k < |s| && 0 <= j < |g[s[k]].edges| ==> keys[g[s[k]].edges[j]] in visited
  }

  lemma KeySetConcat<T, K>(g: Graph<T>, keys: map<Ref, K>, a: seq<Ref>, b: seq<Ref>)
    requires Keyed(g, keys) && InGraph(g, a) && InGraph(g, b)
    ensures InGraph(g, a + b)
    ensures KeySet(keys, a + b) == KeySet(keys, a) + KeySet(keys, b)
  {
    forall x | x in KeySet(keys, a + b) ensures x in KeySet(keys, a) + KeySet(keys, b) {
      var k :| 0 <= k < |a + b| && keys[(a + b)[k]] == x;
      if k < |a| { assert keys[a[k]] == x; } else { assert keys[b[k - |a|]] == x; }
    }
    forall x | x in KeySet(keys, a) + KeySet(keys, b) ensures x in KeySet(keys, a + b) {
      if x in KeySet(keys, a) {
        var k :| 0 <= k < |a| && keys[a[k]] == x;
        assert (a + b)[k] == a[k];
      } else {
        var k :| 0 <= k < |b| && keys[b[k]] == x;
        assert (a + b)[|a| + k] == b[k];
      }
    }
  }

  lemma DistinctConcat<T, K>(g: Graph<T>, keys: map<Ref, K>, a: seq<Ref>, b: seq<Ref>)
    requires Keyed(g, keys) && InGraph(g, a) && InGraph(g, b)
    requires DistinctKeys(keys, a) && DistinctKeys(keys, b) && KeySet(keys, a) !! KeySet(keys, b)
    ensures InGraph(g, a + b) && DistinctKeys(keys, a + b)
  {
    assert InGraph(g, a + b);
    forall i, j | 0 <= i < j < |a + b| ensures keys[(a + b)[i]] != keys[(a + b)[j]] {
      if j < |a| {
        assert (a + b)[i] == a[i] && (a + b)[j] == a[j];
      } else if |a| <= i {
        assert (a + b)[i] == b[i - |a|] && (a + b)[j] == b[j - |a|];
      } else {
        assert keys[a[i]] in KeySet(keys, a);
        assert (a + b)[j] == b[j - |a|];
        assert keys[b[j - |a|]] in KeySet(keys, b);
      }
    }
  }

  /** The visited set grows by exactly the keys of the nodes the visitor saw. */
  lemma {:induction false} DfsSeen<T, K>(g: Graph<T>, keys: map<Ref, K>, r: Ref, visited: set<K>)
    requires Keyed(g, keys) && r in g
    ensures Dfs(g, keys, r, visited).visited == visited + KeySet(keys, Dfs(g, keys, r, visited).order)
    decreases Unseen(keys, visited), if keys[r] in visited then 2 else 0
  {
    UnseenStep(keys, visited, r);
    var rest := DfsEdges(g, keys, r, 0, visited + {keys[r]});
    DfsEdgesSeen(g, keys, r, 0, visited + {keys[r]});
    KeySetConcat(g, keys, [r], rest.order);
    assert KeySet(keys, [r]) == {keys[r]} by {
      assert [r][0] == r;
    }
  }

  /** The same for the edge loop from edge i on. */
  lemma {:induction false} DfsEdgesSeen<T, K>(g: Graph<T>, keys: map<Ref, K>, r: Ref, i: nat, visited: set<K>)
    requires Keyed(g, keys) && r in g && i <= |g[r].edges|
    ensures DfsEdges(g, keys, r, i, visited).visited == visited + KeySet(keys, DfsEdges(g, keys, r, i, visited).order)
    decreases Unseen(keys, visited), 1, |g[r].edges| - i
  {
    if i == |g[r].edges| {
      assert KeySet(keys, []) == {};
    } else if keys[g[r].edges[i]] in visited {
      DfsEdgesSeen(g, keys, r, i + 1, visited);
    } else {
      var e := g[r].edges[i];
      var sub := Dfs(g, keys, e, visited);
      UnseenMonotone(keys, visited, sub.visited);
      var rest := DfsEdges(g, keys, r, i + 1, sub.visited);
      DfsSeen(g, keys, e, visited);
      DfsEdgesSeen(g, keys, r, i + 1, sub.visited);
      KeySetConcat(g, keys, sub.order, rest.order);
    }
  }

  /** Started on an unvisited node, a traversal sees no key twice and none that was already
      visited. */
  lemma {:induction false} DfsDistinct<T, K>(g: Graph<T>, keys: map<Ref, K>, r: Ref, visited: set<K>)
    requires Keyed(g, keys) && r in g && keys[r] !in visited
    ensures DistinctKeys(keys, Dfs(g, keys, r, visited).order)
    ensures KeySet(keys, Dfs(g, keys, r, visited).order) !! visited
    decreases Unseen(keys, visited), 0
  {
    UnseenStep(keys, visited, r);
    var rest := DfsEdges(g, keys, r, 0, visited + {keys[r]});
    DfsEdgesDistinct(g, keys, r, 0, visited + {keys[r]});
    KeySetConcat(g, keys, [r], rest.order);
    assert KeySet(keys, [r]) == {keys[r]} by {
      assert [r][0] == r;
    }
    DistinctConcat(g, keys, [r], rest.order);
  }

  /** The edge loop sees no key twice and none that was already visited. */
  lemma {:induction false} DfsEdgesDistinct<T, K>(g: Graph<T>, keys: map<Ref, K>, r: Ref, i: nat, visited: set<K>)
    requires Keyed(g, keys) && r in g && i <= |g[r].edges|
    ensures DistinctKeys(keys, DfsEdges(g, keys, r, i, visited).order)
    ensures KeySet(keys, DfsEdges(g, keys, r, i, visited).order) !! visited
    decreases Unseen(keys, visited), 1, |g[r].edges| - i
  {
    if i == |g[r].edges| {
      assert KeySet(keys, []) == {};
    } else if keys[g[r].edges[i]] in visited {
      DfsEdgesDistinct(g, keys, r, i + 1, visited);
    } else {
      var e := g[r].edges[i];
      var sub := Dfs(g, keys, e, visited);
      UnseenMonotone(keys, visited, sub.visited);
      var rest := DfsEdges(g, keys, r, i + 1, sub.visited);
      DfsDistinct(g, keys, e, visited);
      DfsSeen(g, keys, e, visited);
      DfsEdgesDistinct(g, keys, r, i + 1, sub.visited);
      KeySetConcat(g, keys, sub.order, rest.order);
      DistinctConcat(g, keys, sub.order, rest.order);
    }
  }

  /** Every edge from edge i on ends up with its key visited. */
  lemma {:induction false} DfsEdgesCoverFrom<T, K>(g: Graph<T>, keys: map<Ref, K>, r: Ref, i: nat, visited: set<K>)
    requires Keyed(g, keys) && r in g && i <= |g[r].edges|
    ensures forall j :: i <= j < |g[r].edges| ==> keys[g[r].edges[j]] in DfsEdges(g, keys, r, i, visited).visited
    decreases |g[r].edges| - i
  {
    if i < |g[r].edges| {
      var e := g[r].edges[i];
      if keys[e] in visited {
        DfsEdgesCoverFrom(g, keys, r, i + 1, visited);
      } else {
        var sub := Dfs(g, keys, e, visited);
        DfsEdgesCoverFrom(g, keys, r, i + 1, sub.visited);
      }
    }
  }

  /** Every edge of every node a traversal sees leads to a node whose key is visited. */
  lemma {:induction false} DfsCovered<T, K>(g: Graph<T>, keys: map<Ref, K>, r: Ref, visited: set<K>)
    requires Keyed(g, keys) && r in g
    ensures EdgesCovered(g, keys, Dfs(g, keys, r, visited).order, Dfs(g, keys, r, visited).visited)
    decreases Unseen(keys, visited), if keys[r] in visited then 2 else 0
  {
    UnseenStep(keys, visited, r);
    var rest := DfsEdges(g, keys, r, 0, visited + {keys[r]});
    DfsEdgesCovered(g, keys, r, 0, visited + {keys[r]});
    DfsEdgesCoverFrom(g, keys, r, 0, visited + {keys[r]});
    var w := Dfs(g, keys, r, visited);
    forall k, j | 0 <= k < |w.order| && 0 <= j < |g[w.order[k]].edges|
      ensures keys[g[w.order[k]].edges[j]] in w.visited
    {
      if k > 0 {
        assert w.order[k] == rest.order[k - 1];
      }
    }
  }

  /** The same for the edge loop. */
  lemma {:induction false} DfsEdgesCovered<T, K>(g: Graph<T>, keys: map<Ref, K>, r: Ref, i: nat, visited: set<K>)
    requires Keyed(g, keys) && r in g && i <= |g[r].edges|
    ensures EdgesCovered(g, keys, DfsEdges(g, keys, r, i, visited).order, DfsEdges(g, keys, r, i, visited).visited)
    decreases Unseen(keys, visited), 1, |g[r].edges| - i
  {
    if i == |g[r].edges| {
    } else if keys[g[r].edges[i]] in visited {
      DfsEdgesCovered(g, keys, r, i + 1, visited);
    } else {
      var e := g[r].edges[i];
      var sub := Dfs(g, keys, e, visited);
      UnseenMonotone(keys, visited, sub.visited);
      var rest := DfsEdges(g, keys, r, i + 1, sub.visited);
      DfsCovered(g, keys, e, visited);
      DfsEdgesCovered(g, keys, r, i + 1, sub.visited);
      var w := DfsEdges(g, keys, r, i, visited);
      forall k, j | 0 <= k < |w.order| && 0 <= j < |g[w.order[k]].edges|
        ensures keys[g[w.order[k]].edges[j]] in w.visited
      {
        if k < |sub.order| {
          assert w.order[k] == sub.order[k];
        } else {
          assert w.order[k] == rest.order[k - |sub.order|];
        }
      }
    }
  }

  /** p follows edges through the table: each step goes from a node to one its edges hold. */
  predicate IsPath<T>(g: Graph<T>, p: seq<Ref>)
  {
    |p| > 0 && InGraph(g, p) && forall k :: 0 <= k < |p| - 1 ==> p[k + 1] in g[p[k]].edges
  }

  /** Some path leads from a to b. */
  ghost predicate Reachable<T>(g: Graph<T>, a: Ref, b: Ref)
  {
    exists p :: IsPath(g, p) && p[0] == a && p[|p| - 1] == b
  }

  /** A node reaches itself. */
  lemma ReachableSelf<T>(g: Graph<T>, a: Ref)
    requires a in g
    ensures Reachable(g, a, a)
  {
    assert IsPath(g, [a]);
  }

  /** Following one edge, then a path, is a path. */
  lemma ReachableThroughEdge<T>(g: Graph<T>, a: Ref, e: Ref, b: Ref)
    requires a in g && e in g[a].edges && Reachable(g, e, b)
    ensures Reachable(g, a, b)
  {
    var p :| IsPath(g, p) && p[0] == e && p[|p| - 1] == b;
    var q := [a] + p;
    assert q[1..] == p;
    assert IsPath(g, q);
  }

  /** Every node a traversal sees is reachable from its root. */
  lemma {:induction false} DfsReachable<T, K>(g: Graph<T>, keys: map<Ref, K>, r: Ref, visited: set<K>)
    requires Keyed(g, keys) && r in g
    ensures forall k :: 0 <= k < |Dfs(g, keys, r, visited).order| ==> Reachable(g, r, Dfs(g, keys, r, visited).order[k])
    decreases Unseen(keys, visited), if keys[r] in visited then 2 else 0
  {
    UnseenStep(keys, visited, r);
    var rest := DfsEdges(g, keys, r, 0, visited + {keys[r]});
    DfsEdgesReachable(g, keys, r, 0, visited + {keys[r]});
    var w := Dfs(g, keys, r, visited);
    assert w.order == [r] + rest.order;
    forall k | 0 <= k < |w.order| ensures Reachable(g, r, w.order[k]) {
      if k == 0 {
        ReachableSelf(g, r);
      } else {
        assert w.order[k] == rest.order[k - 1];
        assert ReachedBy(g, r, 0, rest.order[k - 1]);
        var j :| 0 <= j < |g[r].edges| && Reachable(g, g[r].edges[j], rest.order[k - 1]);
        ReachableThroughEdge(g, r, g[r].edges[j], w.order[k]);
      }
    }
  }

  /** The node at x is reachable through one of the edges of the node at r from edge i on. */
  ghost predicate ReachedBy<T>(g: Graph<T>, r: Ref, i: nat, x: Ref)
    requires r in g
  {
    exists j :: i <= j < |g[r].edges| && Reachable(g, g[r].edges[j], x)
  }

  /** Every node in s is reached that way. */
  ghost predicate ReachedFrom<T>(g: Graph<T>, r: Ref, i: nat, s: seq<Ref>)
    requires r in g
  {
    forall k :: 0 <= k < |s| ==> ReachedBy(g, r, i, s[k])
  }

  lemma ReachedByEarlier<T>(g: Graph<T>, r: Ref, i: nat, x: Ref)
    requires r in g && ReachedBy(g, r, i + 1, x)
    ensures ReachedBy(g, r, i, x)
  {
    var j :| i + 1 <= j < |g[r].edges| && Reachable(g, g[r].edges[j], x);
  }

  lemma ReachedFromEarlier<T>(g: Graph<T>, r: Ref, i: nat, s: seq<Ref>)
    requires r in g && ReachedFrom(g, r, i + 1, s)
    ensures ReachedFrom(g, r, i, s)
  {
    forall k | 0 <= k < |s| ensures ReachedBy(g, r, i, s[k]) {
      ReachedByEarlier(g, r, i, s[k]);
    }
  }

  lemma ReachedFromConcat<T>(g: Graph<T>, r: Ref, i: nat, a: seq<Ref>, b: seq<Ref>)
    requires r in g && i < |g[r].edges|
    requires forall k :: 0 <= k < |a| ==> Reachable(g, g[r].edges[i], a[k])
    requires ReachedFrom(g, r, i + 1, b)
    ensures ReachedFrom(g, r, i, a + b)
  {
    ReachedFromEarlier(g, r, i, b);
    forall k | 0 <= k < |a + b| ensures ReachedBy(g, r, i, (a + b)[k]) {
      if k < |a| {
        assert (a + b)[k] == a[k];
        assert Reachable(g, g[r].edges[i], (a + b)[k]);
      } else {
        assert (a + b)[k] == b[k - |a|];
      }
    }
  }

  /** Every node the edge loop from edge i on sees is reachable through one of those edges. */
  lemma {:induction false} DfsEdgesReachable<T, K>(g: Graph<T>, keys: map<Ref, K>, r: Ref, i: nat, visited: set<K>)
    requires Keyed(g, keys) && r in g && i <= |g[r].edges|
    ensures ReachedFrom(g, r, i, DfsEdges(g, keys, r, i, visited).order)
    decreases Unseen(keys, visited), 1, |g[r].edges| - i
  {
    if i == |g[r].edges| {
    } else if keys[g[r].edges[i]] in visited {
      DfsEdgesReachable(g, keys, r, i + 1, visited);
      ReachedFromEarlier(g, r, i, DfsEdges(g, keys, r, i + 1, visited).order);
    } else {
      var e := g[r].edges[i];
      var sub := Dfs(g, keys, e, visited);
      UnseenMonotone(keys, visited, sub.visited);
      var rest := DfsEdges(g, keys, r, i + 1, sub.visited);
      DfsReachable(g, keys, e, visited);
      DfsEdgesReachable(g, keys, r, i + 1, sub.visited);
      ReachedFromConcat(g, r, i, sub.order, rest.order);
    }
  }

  /** The node is seen before any of its children, and afterwards the key of every child is
      visited. */
  lemma NodeBeforeChildren<T, K>(g: Graph<T>, keys: map<Ref, K>, r: Ref, visited: set<K>)
    requires Keyed(g, keys) && r in g
    ensures |Dfs(g, keys, r, visited).order| > 0 && Dfs(g, keys, r, visited).order[0] == r
    ensures forall j :: 0 <= j < |g[r].edges| ==> keys[g[r].edges[j]] in Dfs(g, keys, r, visited).visited
  {
    UnseenStep(keys, visited, r);
    DfsEdgesCoverFrom(g, keys, r, 0, visited + {keys[r]});
  }

  /** `detail::visit_depth_first`: the recursive traversal, updating the visited set. */
  method VisitDepthFirst<T, K(==)>(g: Graph<T>, keys: map<Ref, K>, r: Ref, visited: set<K>)
    returns (order: seq<Ref>, visited': set<K>)
    requires Keyed(g, keys) && r in g
    ensures Walk(order, visited') == Dfs(g, keys, r, visited)
    decreases Unseen(keys, visited), if keys[r] in visited then 2 else 0
  {
    UnseenStep(keys, visited, r);
    visited' := visited + {keys[r]};
    ghost var goal := DfsEdges(g, keys, r, 0, visited');
    var below: seq<Ref> := [];
    var edges := g[r].edges;
    var i := 0;
    while i < |edges|
      invariant 0 <= i <= |edges|
      invariant visited + {keys[r]} <= visited'
      invariant goal.order == below + DfsEdges(g, keys, r, i, visited').order
      invariant goal.visited == DfsEdges(g, keys, r, i, visited').visited
    {
      var e := edges[i];
      if keys[e] !in visited' {
        UnseenMonotone(keys, visited + {keys[r]}, visited');
        var sub, after := VisitDepthFirst(g, keys, e, visited');
        ghost var rest := DfsEdges(g, keys, r, i + 1, after);
        assert DfsEdges(g, keys, r, i, visited') == Walk(sub + rest.order, rest.visited);
        below := below + sub;
        visited' := after;
      } else {
        assert DfsEdges(g, keys, r, i, visited') == DfsEdges(g, keys, r, i + 1, visited');
      }
      i := i + 1;
    }
    order := [r] + below;
  }

  /** `visit(n, visitor)`: a traversal from a fresh, empty visited set of nodes compared by
      node equality. It ends on every graph, cyclic ones included; the root comes first, no
      two nodes seen are equal, every node seen is reachable from the root, and every edge of
      a seen node leads to a node equal to one that was seen. */
  method Visit<T(==)>(g: Graph<T>, r: Ref) returns (order: seq<Ref>)
    requires Closed(g) && r in g
    ensures order == Dfs(g, KeyTable(g), r, {}).order
    ensures |order| > 0 && order[0] == r
    ensures InGraph(g, order)
    ensures forall i, j :: 0 <= i < j < |order| ==> !ShallowEqual(Shallow(g, order[i]), Shallow(g, order[j]))
    ensures forall k :: 0 <= k < |order| ==> Reachable(g, r, order[k])
    ensures forall k, j :: 0 <= k < |order| && 0 <= j < |g[order[k]].edges| ==>
      exists m :: 0 <= m < |order| && ShallowEqual(Shallow(g, order[m]), Shallow(g, g[order[k]].edges[j]))
  {
    var keys := KeyTable(g);
    var visited;
    order, visited := VisitDepthFirst(g, keys, r, {});
    DfsSeen(g, keys, r, {});
    DfsDistinct(g, keys, r, {});
    DfsCovered(g, keys, r, {});
    DfsReachable(g, keys, r, {});
    NodeBeforeChildren(g, keys, r, {});
    forall i, j | 0 <= i < j < |order|
      ensures !ShallowEqual(Shallow(g, order[i]), Shallow(g, order[j]))
    {
      CellKeyIffEqual(g, order[i], order[j]);
    }
    forall k, j | 0 <= k < |order| && 0 <= j < |g[order[k]].edges|
      ensures exists m :: 0 <= m < |order| && ShallowEqual(Shallow(g, order[m]), Shallow(g, g[order[k]].edges[j]))
    {
      var e := g[order[k]].edges[j];
      assert keys[e] in KeySet(keys, order);
      var m :| 0 <= m < |order| && keys[order[m]] == keys[e];
      CellKeyIffEqual(g, order[m], e);
    }
  }

  /** A cycle: node 0 (value 1) points to node 1 (value 2), which points back to node 0. */
  const Cycle: Graph<int> := map[0 := Cell(1, [1]), 1 := Cell(2, [0])]

  /** The traversal of the cycle sees each node once and stops. */
  lemma CycleVisitedOnce()
    ensures Closed(Cycle) && Dfs(Cycle, KeyTable(Cycle), 0, {}).order == [0, 1]
  {
    var g := Cycle;
    var keys := KeyTable(g);
    var k0, k1 := keys[0], keys[1];
    assert k0.0 == 1 && k1.0 == 2;
    assert g[0].edges == [1] && g[1].edges == [0];
    var both := {k0, k1};
    assert {} + {k0} == {k0};
    assert {k0} + {k1} == both;
    var inner := DfsEdges(g, keys, 1, 0, both);
    assert inner == DfsEdges(g, keys, 1, 1, both) == Walk([], both);
    assert Dfs(g, keys, 1, {k0}) == Walk([1], both);
    assert DfsEdges(g, keys, 0, 0, {k0}) == Walk([1] + DfsEdges(g, keys, 0, 1, both).order, both);
  }
}
