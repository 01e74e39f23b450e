/**
 * The directed graph the pipeline populates and its two bulk insertions.
 *
 * The graph library's own code is not part of this model. Its insertion
 * semantics are an explicit assumption here, stated once by AddEdge and
 * AddNode: inserting an edge first creates each missing endpoint with an
 * empty attribute dict, then updates the edge's attribute dict (creating it
 * empty if absent) with the new attributes; inserting a node creates it with
 * an empty dict if absent and then updates its dict with the new attributes.
 * "Update" is dict.update: on a shared key the newer value wins, other keys
 * stay.
 */
module Graph {
  import opened Wrappers
  import opened Literals
  import opened Streams

  /** A `(node id, attributes)` pair as handed to the node insertion. */
  datatype Node<N> = Node(id: N, props: Props)

  /** A `(source, target, attributes)` triple as handed to the edge insertion. */
  datatype Edge<N> = Edge(source: N, target: N, props: Props)

  /** The graph's content: attributes per node and per ordered node pair. */
  datatype GraphState<N> = GraphState(node: map<N, Props>, edge: map<(N, N), Props>)

  /** The outcome of an assembly: the graph as left, and the error raised, if any. */
  datatype Assembly<N> = Assembly(graph: GraphState<N>, error: Option<Error>)

  function Empty<N(==)>(): GraphState<N> {
    GraphState(map[], map[])
  }

  /** Every edge joins two nodes of the graph. */
  ghost predicate Closed<N>(g: GraphState<N>) {
    forall p :: p in g.edge ==> p.0 in g.node && p.1 in g.node
  }

  /** The attributes stored under `k`, or the empty dict a fresh entry starts with. */
  function Attrs<K>(m: map<K, Props>, k: K): Props {
    if k in m then m[k] else map[]
  }

  /** Inserting one edge (the assumed library semantics). */
  function AddEdge<N(==)>(g: GraphState<N>, e: Edge<N>): GraphState<N> {
    var withSource := if e.source in g.node then g.node else g.node[e.source := map[]];
    var withBoth := if e.target in withSource then withSource else withSource[e.target := map[]];
    var p := (e.source, e.target);
    GraphState(withBoth, g.edge[p := Merge(Attrs(g.edge, p), e.props)])
  }

  /** Inserting one node (the assumed library semantics). */
  function AddNode<N(==)>(g: GraphState<N>, n: Node<N>): GraphState<N> {
    GraphState(g.node[n.id := Merge(Attrs(g.node, n.id), n.props)], g.edge)
  }

  /** Inserting a sequence of edges, first to last. */
  function AddEdges<N(==)>(g: GraphState<N>, es: seq<Edge<N>>): GraphState<N> {
    if es == [] then g else AddEdge(AddEdges(g, es[..|es| - 1]), es[|es| - 1])
  }

  /** Inserting a sequence of nodes, first to last. */
  function AddNodes<N(==)>(g: GraphState<N>, ns: seq<Node<N>>): GraphState<N> {
    if ns == [] then g else AddNode(AddNodes(g, ns[..|ns| - 1]), ns[|ns| - 1])
  }

  /**
   * Both assembly functions: every edge the edge generator yields is
   * inserted, then every node the node generator yields. An exception from
   * the edge generator ends the assembly before the node generator is ever
   * started; one from the node generator ends it after the nodes yielded so far.
   */
  function Assemble<N(==)>(g: GraphState<N>, es: Stream<Edge<N>>, ns: Stream<Node<N>>): (r: Assembly<N>)
    ensures es.stop.Some? ==> r.error == es.stop
    ensures es.stop.None? ==> r.error == ns.stop
  {
    var afterEdges := AddEdges(g, es.items);
    if es.stop.Some? then Assembly(afterEdges, es.stop)
    else Assembly(AddNodes(afterEdges, ns.items), ns.stop)
  }

  // ----- What a sequence of insertions leaves behind -----

  /** The nodes an edge sequence mentions. */
  function Endpoints<N(==)>(es: seq<Edge<N>>): set<N> {
    if es == [] then {} else Endpoints(es[..|es| - 1]) + {es[|es| - 1].source, es[|es| - 1].target}
  }

  /** The node pairs an edge sequence mentions. */
  function Pairs<N(==)>(es: seq<Edge<N>>): set<(N, N)> {
    if es == [] then {} else Pairs(es[..|es| - 1]) + {(es[|es| - 1].source, es[|es| - 1].target)}
  }

  /** The node ids a node sequence mentions. */
  function Ids<N(==)>(ns: seq<Node<N>>): set<N> {
    if ns == [] then {} else Ids(ns[..|ns| - 1]) + {ns[|ns| - 1].id}
  }

  /** The attributes of every edge row for pair `p`, merged in row order. */
  function EdgeUpdates<N(==)>(es: seq<Edge<N>>, p: (N, N)): Props {
    if es == [] then map[]
    else
      var last := es[|es| - 1];
      var prior := EdgeUpdates(es[..|es| - 1], p);
      if (last.source, last.target) == p then Merge(prior, last.props) else prior
  }

  /** The attributes of every node row for id `v`, merged in row order. */
  function NodeUpdates<N(==)>(ns: seq<Node<N>>, v: N): Props {
    if ns == [] then map[]
    else
      var last := ns[|ns| - 1];
      var prior := NodeUpdates(ns[..|ns| - 1], v);
      if last.id == v then Merge(prior, last.props) else prior
  }

  /**
   * Edge insertion adds exactly the mentioned endpoints, each new one with an
   * empty dict, and leaves every node already present untouched.
   */
  lemma {:induction false} AddEdgesNodes<N>(g: GraphState<N>, es: seq<Edge<N>>)
    ensures AddEdges(g, es).node.Keys == g.node.Keys + Endpoints(es)
    ensures forall v :: v in AddEdges(g, es).node ==> AddEdges(g, es).node[v] == Attrs(g.node, v)
  {
    if es != [] {
      var init, last := es[..|es| - 1], es[|es| - 1];
      AddEdgesNodes(g, init);
      var before := AddEdges(g, init);
      AddEdgeNodes(before, last);
    }
  }

  /** One edge insertion adds its missing endpoints with empty dicts and touches no other node. */
  lemma AddEdgeNodes<N>(g: GraphState<N>, e: Edge<N>)
    ensures AddEdge(g, e).node.Keys == g.node.Keys + {e.source, e.target}
    ensures forall v :: v in AddEdge(g, e).node ==> AddEdge(g, e).node[v] == Attrs(g.node, v)
  {
  }

  /**
   * After edge insertion the pairs are those present before plus those
   * mentioned, and each pair's dict is its old one updated by the rows for
   * that pair in row order.
   */
  lemma {:induction false} AddEdgesEdges<N>(g: GraphState<N>, es: seq<Edge<N>>)
    ensures AddEdges(g, es).edge.Keys == g.edge.Keys + Pairs(es)
    ensures forall p :: p in AddEdges(g, es).edge ==>
      AddEdges(g, es).edge[p] == Merge(Attrs(g.edge, p), EdgeUpdates(es, p))
  {
    if es != [] {
      var init, last := es[..|es| - 1], es[|es| - 1];
      var lp := (last.source, last.target);
      AddEdgesEdges(g, init);
      var before := AddEdges(g, init);
      var after := AddEdges(g, es);
      AddEdgeEdges(before, last);
      forall p | p in after.edge
        ensures after.edge[p] == Merge(Attrs(g.edge, p), EdgeUpdates(es, p))
      {
        if p == lp {
          if p in before.edge {
            MergeAssociative(Attrs(g.edge, p), EdgeUpdates(init, p), last.props);
          } else {
            UpdatesOutsidePairs(init, p);
            MergeIntoEmpty(last.props);
          }
        }
      }
    }
  }

  /** One edge insertion adds its pair and updates that pair's dict only. */
  lemma AddEdgeEdges<N>(g: GraphState<N>, e: Edge<N>)
    ensures var p := (e.source, e.target);
      && AddEdge(g, e).edge.Keys == g.edge.Keys + {p}
      && AddEdge(g, e).edge[p] == Merge(Attrs(g.edge, p), e.props)
      && forall q :: q in g.edge && q != p ==> AddEdge(g, e).edge[q] == g.edge[q]
  {
  }

  /** Updating with two dicts in turn is updating with their merge. */
  lemma MergeAssociative(a: Props, b: Props, c: Props)
    ensures Merge(Merge(a, b), c) == Merge(a, Merge(b, c))
  {
  }

  /** Updating an empty dict, or updating with an empty one, yields the other dict. */
  lemma MergeIntoEmpty(a: Props)
    ensures Merge(map[], a) == a && Merge(a, map[]) == a
  {
  }

  /** A pair no edge row mentions receives no attributes. */
  lemma {:induction false} UpdatesOutsidePairs<N>(es: seq<Edge<N>>, p: (N, N))
    requires p !in Pairs(es)
    ensures EdgeUpdates(es, p) == map[]
  {
    if es != [] {
      UpdatesOutsidePairs(es[..|es| - 1], p);
    }
  }

  /**
   * Node insertion leaves the edges alone, adds exactly the mentioned ids, and
   * gives each node its old dict updated by the rows for it in row order.
   */
  lemma {:induction false} AddNodesNodes<N>(g: GraphState<N>, ns: seq<Node<N>>)
    ensures AddNodes(g, ns).edge == g.edge
    ensures AddNodes(g, ns).node.Keys == g.node.Keys + Ids(ns)
    ensures forall v :: v in AddNodes(g, ns).node ==>
      AddNodes(g, ns).node[v] == Merge(Attrs(g.node, v), NodeUpdates(ns, v))
  {
    if ns != [] {
      var init, last := ns[..|ns| - 1], ns[|ns| - 1];
      AddNodesNodes(g, init);
      var before := AddNodes(g, init);
      var after := AddNodes(g, ns);
      assert after == AddNode(before, last);
      forall v | v in after.node
        ensures after.node[v] == Merge(Attrs(g.node, v), NodeUpdates(ns, v))
      {
        if v == last.id {
          if v in before.node {
            MergeAssociative(Attrs(g.node, v), NodeUpdates(init, v), last.props);
          } else {
            UpdatesOutsideIds(init, v);
            MergeIntoEmpty(last.props);
          }
        }
      }
    }
  }

  /** Both insertions keep every edge between nodes of the graph. */
  lemma {:induction false} InsertionsStayClosed<N>(g: GraphState<N>, es: seq<Edge<N>>, ns: seq<Node<N>>)
    requires Closed(g)
    ensures Closed(AddEdges(g, es))
    ensures Closed(AddNodes(g, ns))
  {
    AddEdgesNodes(g, es);
    AddEdgesEdges(g, es);
    AddNodesNodes(g, ns);
    var h := AddEdges(g, es);
    forall p | p in h.edge
      ensures p.0 in h.node && p.1 in h.node
    {
      if p !in g.edge {
        PairsHaveEndpoints(es, p);
      }
    }
  }

  /** Both ends of a mentioned pair are mentioned endpoints. */
  lemma {:induction false} PairsHaveEndpoints<N>(es: seq<Edge<N>>, p: (N, N))
    requires p in Pairs(es)
    ensures p.0 in Endpoints(es) && p.1 in Endpoints(es)
  {
    var init := es[..|es| - 1];
    if p in Pairs(init) {
      PairsHaveEndpoints(init, p);
    }
  }

  /**
   * Edges before nodes, from an empty graph: the graph's nodes are the
   * endpoints and the node ids; a node only edges mention keeps the empty
   * dict its edge created; a node the node rows mention carries exactly the
   * attributes of those rows, so that empty dict does not survive.
   */
  lemma EdgesBeforeNodes<N>(es: seq<Edge<N>>, ns: seq<Node<N>>)
    ensures var g := AddNodes(AddEdges(Empty(), es), ns);
      && g.node.Keys == Endpoints(es) + Ids(ns)
      && (forall v :: v in Endpoints(es) && v !in Ids(ns) ==> g.node[v] == map[])
      && (forall v :: v in Ids(ns) ==> g.node[v] == NodeUpdates(ns, v))
  {
    var g := AddNodes(AddEdges(Empty(), es), ns);
    NodesCarryTheirUpdates(es, ns);
    forall v | v in Endpoints(es) && v !in Ids(ns)
      ensures g.node[v] == map[]
    {
      UpdatesOutsideIds(ns, v);
    }
  }

  /** Edges, then nodes, from an empty graph: every node carries exactly the updates of its node rows. */
  lemma NodesCarryTheirUpdates<N>(es: seq<Edge<N>>, ns: seq<Node<N>>)
    ensures var g := AddNodes(AddEdges(Empty(), es), ns);
      && g.node.Keys == Endpoints(es) + Ids(ns)
      && forall v :: v in g.node ==> g.node[v] == NodeUpdates(ns, v)
  {
    var e: GraphState<N> := Empty();
    var h := AddEdges(e, es);
    var g := AddNodes(h, ns);
    AddEdgesNodes(e, es);
    assert forall v :: v in h.node ==> Attrs(h.node, v) == map[];
    AddNodesNodes(h, ns);
    forall v | v in g.node
      ensures g.node[v] == NodeUpdates(ns, v)
    {
      assert Attrs(h.node, v) == map[];
      MergeIntoEmpty(NodeUpdates(ns, v));
    }
  }

  /**
   * Under update semantics the order of the two bulk insertions does not
   * matter from an empty graph: inserting the nodes first and the edges
   * second yields the same nodes, edges and attributes, because edge
   * insertion only creates missing endpoints and never resets a node's
   * attributes. The order in which the library lists nodes and edges is not
   * part of the graph state and may differ.
   */
  lemma NodesFirstSameGraph<N>(es: seq<Edge<N>>, ns: seq<Node<N>>)
    ensures AddEdges(AddNodes(Empty(), ns), es) == AddNodes(AddEdges(Empty(), es), ns)
  {
    NodesFirstSameNodes(es, ns);
    NodesFirstSameEdges(es, ns);
  }

  /** The node half: each node ends with the same attributes in either order. */
  lemma NodesFirstSameNodes<N>(es: seq<Edge<N>>, ns: seq<Node<N>>)
    ensures AddEdges(AddNodes(Empty(), ns), es).node == AddNodes(AddEdges(Empty(), es), ns).node
  {
    var e: GraphState<N> := Empty();
    var nodesFirst := AddNodes(e, ns);
    var lhs := AddEdges(nodesFirst, es).node;
    var rhs := AddNodes(AddEdges(e, es), ns).node;
    AddNodesNodes(e, ns);
    AddEdgesNodes(nodesFirst, es);
    EdgesBeforeNodes(es, ns);
    assert lhs.Keys == rhs.Keys;
    forall v | v in lhs
      ensures lhs[v] == rhs[v]
    {
      if v in Ids(ns) {
        MergeIntoEmpty(NodeUpdates(ns, v));
      }
    }
  }

  /** The edge half: node insertion never touches the edges. */
  lemma NodesFirstSameEdges<N>(es: seq<Edge<N>>, ns: seq<Node<N>>)
    ensures AddEdges(AddNodes(Empty(), ns), es).edge == AddNodes(AddEdges(Empty(), es), ns).edge
  {
    var e: GraphState<N> := Empty();
    var nodesFirst := AddNodes(e, ns);
    var lhs := AddEdges(nodesFirst, es).edge;
    var rhs := AddNodes(AddEdges(e, es), ns).edge;
    AddNodesNodes(e, ns);
    AddEdgesEdges(nodesFirst, es);
    AssembledEdges(es, ns);
    assert lhs.Keys == rhs.Keys;
    forall p | p in lhs
      ensures lhs[p] == rhs[p]
    {
      MergeIntoEmpty(EdgeUpdates(es, p));
    }
  }

  /**
   * From an empty graph the edges are exactly the mentioned pairs, each with
   * the attributes of its rows merged in row order; node insertion does not
   * touch them.
   */
  lemma AssembledEdges<N>(es: seq<Edge<N>>, ns: seq<Node<N>>)
    ensures var g := AddNodes(AddEdges(Empty(), es), ns);
      && g.edge.Keys == Pairs(es)
      && (forall p :: p in g.edge ==> g.edge[p] == EdgeUpdates(es, p))
  {
    var e: GraphState<N> := Empty();
    var h := AddEdges(e, es);
    AddEdgesEdges(e, es);
    AddNodesNodes(h, ns);
    forall p | p in h.edge
      ensures h.edge[p] == EdgeUpdates(es, p)
    {
      MergeIntoEmpty(EdgeUpdates(es, p));
    }
  }

  /** An id no node row mentions receives no attributes. */
  lemma {:induction false} UpdatesOutsideIds<N>(ns: seq<Node<N>>, v: N)
    requires v !in Ids(ns)
    ensures NodeUpdates(ns, v) == map[]
  {
    if ns != [] {
      UpdatesOutsideIds(ns[..|ns| - 1], v);
    }
  }

  /**
   * A later node row wins: for the last row with id `v`, each key it carries
   * has that row's value in the merged attributes; a single row for `v`
   * gives exactly its own attributes.
   */
  lemma {:induction false} LastNodeRowWins<N>(ns: seq<Node<N>>, j: nat, v: N)
    requires j < |ns| && ns[j].id == v
    requires forall i :: j < i < |ns| ==> ns[i].id != v
    ensures forall k :: k in ns[j].props ==> k in NodeUpdates(ns, v) && NodeUpdates(ns, v)[k] == ns[j].props[k]
    ensures (forall i :: 0 <= i < j ==> ns[i].id != v) ==> NodeUpdates(ns, v) == ns[j].props
  {
    if j < |ns| - 1 {
      LastNodeRowWins(ns[..|ns| - 1], j, v);
    } else {
      if forall i :: 0 <= i < j ==> ns[i].id != v {
        IdsOfPrefix(ns[..j], v);
        UpdatesOutsideIds(ns[..j], v);
      }
    }
  }

  /** An id no row of a sequence carries is not among its ids. */
  lemma {:induction false} IdsOfPrefix<N>(ns: seq<Node<N>>, v: N)
    requires forall i :: 0 <= i < |ns| ==> ns[i].id != v
    ensures v !in Ids(ns)
  {
    if ns != [] {
      IdsOfPrefix(ns[..|ns| - 1], v);
    }
  }

  /**
   * A later edge row for the same pair wins on every key it carries; the
   * pair is still one edge.
   */
  lemma {:induction false} LastEdgeRowWins<N>(es: seq<Edge<N>>, j: nat)
    requires j < |es|
    requires forall i :: j < i < |es| ==> (es[i].source, es[i].target) != (es[j].source, es[j].target)
    ensures var p := (es[j].source, es[j].target);
      forall k :: k in es[j].props ==> k in EdgeUpdates(es, p) && EdgeUpdates(es, p)[k] == es[j].props[k]
  {
    if j < |es| - 1 {
      LastEdgeRowWins(es[..|es| - 1], j);
    }
  }

  /**
   * From an empty graph, the last edge row for a pair wins on every key it
   * carries, and the pair is an edge of the graph.
   */
  lemma AssembledLastEdgeWins<N>(es: seq<Edge<N>>, ns: seq<Node<N>>, j: nat)
    requires j < |es|
    requires forall i :: j < i < |es| ==> (es[i].source, es[i].target) != (es[j].source, es[j].target)
    ensures var g := AddNodes(AddEdges(Empty(), es), ns);
      var p := (es[j].source, es[j].target);
      && p in g.edge
      && forall k :: k in es[j].props ==> k in g.edge[p] && g.edge[p][k] == es[j].props[k]
  {
    AssembledEdges(es, ns);
    LastEdgeRowWins(es, j);
    PairIsMentioned(es, j);
  }

  /** Every row's pair is among the pairs of the sequence. */
  lemma {:induction false} PairIsMentioned<N>(es: seq<Edge<N>>, j: nat)
    requires j < |es|
    ensures (es[j].source, es[j].target) in Pairs(es)
  {
    if j < |es| - 1 {
      PairIsMentioned(es[..|es| - 1], j);
    }
  }

  /** Every node row's id is among the ids of the sequence. */
  lemma {:induction false} IdIsMentioned<N>(ns: seq<Node<N>>, j: nat)
    requires j < |ns|
    ensures ns[j].id in Ids(ns)
  {
    if j < |ns| - 1 {
      IdIsMentioned(ns[..|ns| - 1], j);
    }
  }

  /**
   * Assembling again from the same records into the graph already built
   * changes nothing: re-inserting the same attributes is a no-op.
   */
  lemma AssembleIdempotent<N>(g: GraphState<N>, es: seq<Edge<N>>, ns: seq<Node<N>>)
    ensures var once := AddNodes(AddEdges(g, es), ns);
      AddNodes(AddEdges(once, es), ns) == once
  {
    var h1 := AddEdges(g, es);
    var once := AddNodes(h1, ns);
    var h2 := AddEdges(once, es);
    var twice := AddNodes(h2, ns);
    AddEdgesNodes(g, es);
    AddNodesNodes(h1, ns);
    AddEdgesNodes(once, es);
    AddNodesNodes(h2, ns);
    assert twice.node.Keys == once.node.Keys;
    forall v | v in twice.node
      ensures twice.node[v] == once.node[v]
    {
      assert Attrs(h2.node, v) == once.node[v];
      MergeAgain(Attrs(h1.node, v), NodeUpdates(ns, v));
    }
    assert twice.node == once.node;
    EdgesTwice(g, es, once);
  }

  /**
   * Re-inserting the edges into a graph whose edges are exactly those the
   * first insertion produced leaves the edges unchanged.
   */
  lemma EdgesTwice<N>(g: GraphState<N>, es: seq<Edge<N>>, once: GraphState<N>)
    requires once.edge == AddEdges(g, es).edge
    ensures AddEdges(once, es).edge == once.edge
  {
    AddEdgesEdges(g, es);
    AddEdgesEdges(once, es);
    var again := AddEdges(once, es);
    forall p | p in again.edge
      ensures again.edge[p] == once.edge[p]
    {
      MergeAgain(Attrs(g.edge, p), EdgeUpdates(es, p));
    }
  }

  /** Updating a dict a second time with the same attributes changes nothing. */
  lemma MergeAgain(base: Props, top: Props)
    ensures Merge(Merge(base, top), top) == Merge(base, top)
  {
  }

  /** The graph object the assembly functions populate in place. */
  class DiGraph<N(==)> {
    var node: map<N, Props>
    var edge: map<(N, N), Props>

    function State(): GraphState<N>
      reads this
    {
      GraphState(node, edge)
    }

    ghost predicate Valid()
      reads this
    {
      Closed(State())
    }

    constructor ()
      ensures Valid() && State() == Empty()
    {
      node := map[];
      edge := map[];
    }

    /** `add_edges_from`: consume the generator, inserting each edge; re-raise its error. */
    method AddEdgesFrom(s: Stream<Edge<N>>) returns (err: Option<Error>)
      requires Valid()
      modifies this
      ensures Valid()
      ensures State() == AddEdges(old(State()), s.items)
      ensures err == s.stop
    {
      var i := 0;
      while i < |s.items|
        invariant i <= |s.items|
        invariant Valid()
        invariant State() == AddEdges(old(State()), s.items[..i])
      {
        var e := s.items[i];
        if e.source !in node {
          node := node[e.source := map[]];
        }
        if e.target !in node {
          node := node[e.target := map[]];
        }
        var p := (e.source, e.target);
        edge := edge[p := Merge(Attrs(edge, p), e.props)];
        assert s.items[..i + 1][..i] == s.items[..i];
        i := i + 1;
      }
      assert s.items[..i] == s.items;
      err := s.stop;
    }

    /** `add_nodes_from`: consume the generator, inserting each node; re-raise its error. */
    method AddNodesFrom(s: Stream<Node<N>>) returns (err: Option<Error>)
      requires Valid()
      modifies this
      ensures Valid()
      ensures State() == AddNodes(old(State()), s.items)
      ensures err == s.stop
    {
      var i := 0;
      while i < |s.items|
        invariant i <= |s.items|
        invariant Valid()
        invariant State() == AddNodes(old(State()), s.items[..i])
      {
        var n := s.items[i];
        node := node[n.id := Merge(Attrs(node, n.id), n.props)];
        assert s.items[..i + 1][..i] == s.items[..i];
        i := i + 1;
      }
      assert s.items[..i] == s.items;
      err := s.stop;
    }
  }
}
