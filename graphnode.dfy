/** Generic graph nodes with shallow equality and hashing (util/graph/node.hpp). */
module GraphNode {

  /** `graph_node<T>` as a tree: a value and the ordered edges to its children, each child
      held by value. This is the form equality, hashing and the clustering result use. */
  datatype Node<T> = Node(value: T, edges: seq<Node<T>>)

  /** The value-only constructor: a node without edges, so it is empty and has size 0. */
  function MakeLeaf<T>(value: T): (n: Node<T>)
    ensures n.value == value && Empty(n) && Size(n) == 0
  {
    Node(value, [])
  }

  /** `make_graph_node_ptr(value, edges)`: keeps the edges in the given order; the node is
      empty exactly when no edges are given. */
  function MakeNode<T>(value: T, edges: seq<Node<T>>): (n: Node<T>)
    ensures n.value == value && Size(n) == |edges|
    ensures Empty(n) <==> |edges| == 0
    ensures forall i :: 0 <= i < |edges| ==> n.edges[i] == edges[i]
  {
    Node(value, edges)
  }

  /** `graph_node_ptr<T>`: a reference to a node stored in a table. Two edges holding the
      same reference share one node, and a chain of references may lead back to its start. */
  type Ref = nat

  /** A node as the table stores it: its value and the references its edges hold. */
  datatype Cell<T> = Cell(value: T, edges: seq<Ref>)

  /** The nodes a program holds through shared pointers, by address. */
  type Graph<T> = map<Ref, Cell<T>>

  /** Every edge points to a node of the table: no pointer is null or dangling. */
  predicate Closed<T>(g: Graph<T>)
  {
    forall r :: r in g ==> forall i :: 0 <= i < |g[r].edges| ==> g[r].edges[i] in g
  }

  /** What equality and hashing read of the node at r: its value and, through each edge, the
      value of the node it points to. Nothing deeper is read. */
  function Shallow<T>(g: Graph<T>, r: Ref): (n: Node<T>)
    requires Closed(g) && r in g
    ensures n.value == g[r].value && Size(n) == |g[r].edges|
    ensures forall i :: 0 <= i < |g[r].edges| ==> n.edges[i].value == g[g[r].edges[i]].value
  {
    Node(g[r].value, seq(|g[r].edges|, i requires 0 <= i < |g[r].edges| => MakeLeaf(g[g[r].edges[i]].value)))
  }

  /** `size()`: the number of edges. */
  function Size<T>(n: Node<T>): nat
  {
    |n.edges|
  }

  /** `empty()`: a node without edges. */
  predicate Empty<T>(n: Node<T>)
  {
    |n.edges| == 0
  }

  /** The values of a node's children, in edge order. */
  function EdgeValues<T>(n: Node<T>): (vs: seq<T>)
    ensures |vs| == Size(n)
    ensures forall i :: 0 <= i < |vs| ==> vs[i] == n.edges[i].value
  {
    seq(|n.edges|, i requires 0 <= i < |n.edges| => n.edges[i].value)
  }

  /** What `equal_to<graph_node>` compares: the value, the edge count and each edge's value.
      Two nodes are equal exactly when their keys are. */
  function Key<T>(n: Node<T>): (T, seq<T>)
  {
    (n.value, EdgeValues(n))
  }

  /** The `equal_to<graph_node>` specification. */
  predicate ShallowEqual<T(==)>(lhs: Node<T>, rhs: Node<T>)
  {
    lhs.value == rhs.value && Size(lhs) == Size(rhs)
    && forall i :: 0 <= i < Size(lhs) ==> lhs.edges[i].value == rhs.edges[i].value
  }

  /** Shallow equality is equality of keys, so it is an equivalence relation. */
  lemma ShallowEqualIffSameKey<T>(lhs: Node<T>, rhs: Node<T>)
    ensures ShallowEqual(lhs, rhs) <==> Key(lhs) == Key(rhs)
  {
    if ShallowEqual(lhs, rhs) {
      assert EdgeValues(lhs) == EdgeValues(rhs);
    }
    if Key(lhs) == Key(rhs) {
      forall i | 0 <= i < Size(lhs) ensures lhs.edges[i].value == rhs.edges[i].value {
        assert EdgeValues(lhs)[i] == EdgeValues(rhs)[i];
      }
    }
  }

  /** Grandchildren are never looked at: nodes whose children carry the same values are
      equal, whatever lies below the children. */
  lemma GrandchildrenIgnored<T>(value: T, edges: seq<Node<T>>, edges': seq<Node<T>>)
    requires |edges| == |edges'|
    requires forall i :: 0 <= i < |edges| ==> edges[i].value == edges'[i].value
    ensures ShallowEqual(Node(value, edges), Node(value, edges'))
  {
  }

  /** `equal_to<graph_node>::operator()`, with its early returns. */
  method EqualTo<T(==)>(lhs: Node<T>, rhs: Node<T>) returns (eq: bool)
    ensures eq <==> ShallowEqual(lhs, rhs)
  {
    if lhs.value != rhs.value {
      return false;
    }
    if |lhs.edges| != |rhs.edges| {
      return false;
    }
    var i := 0;
    var len := |lhs.edges|;
    while i < len
      invariant 0 <= i <= len
      invariant forall j :: 0 <= j < i ==> lhs.edges[j].value == rhs.edges[j].value
    {
      if lhs.edges[i].value != rhs.edges[i].value {
        return false;
      }
      i := i + 1;
    }
    return true;
  }

  /** The seed after combining the node value and then the first n edge values, with
      `combine` standing for `boost::hash_combine` and `h` for `std::hash<T>`. */
  function HashSeed<T>(n: Node<T>, h: T -> int, combine: (int, int) -> int, k: nat): int
    requires k <= |n.edges|
  {
    if k == 0 then combine(0, h(n.value))
    else combine(HashSeed(n, h, combine, k - 1), h(n.edges[k - 1].value))
  }

  /** `hash<graph_node>::operator()`. */
  method Hash<T>(n: Node<T>, h: T -> int, combine: (int, int) -> int) returns (seed: int)
    ensures seed == HashSeed(n, h, combine, |n.edges|)
  {
    seed := 0;
    seed := combine(seed, h(n.value));
    var i := 0;
    while i < |n.edges|
      invariant 0 <= i <= |n.edges|
      invariant seed == HashSeed(n, h, combine, i)
    {
      seed := combine(seed, h(n.edges[i].value));
      i := i + 1;
    }
  }

  /** The hash reads only what equality compares, so equal nodes hash equally. */
  lemma {:induction false} EqualNodesHashEqually<T>(lhs: Node<T>, rhs: Node<T>, h: T -> int,
                                                     combine: (int, int) -> int, k: nat)
    requires ShallowEqual(lhs, rhs) && k <= Size(lhs)
    ensures HashSeed(lhs, h, combine, k) == HashSeed(rhs, h, combine, k)
  {
    if k > 0 {
      EqualNodesHashEqually(lhs, rhs, h, combine, k - 1);
    }
  }
}
