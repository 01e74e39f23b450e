/**
 * The list-based representation builder: both CSV files are read into lists
 * of row tuples, each row is reshaped into the record the graph insertions
 * take, and the graph is populated with all edges, then all nodes.
 */
module ListBuilder {
  import opened Wrappers
  import opened Literals
  import opened Streams
  import opened CsvReader
  import opened Graph

  /** The fixed keys under which label mapping stores row fields. */
  const NodeLabelKey: string := "node_label"
  const EdgeIdKey: string := "edge_id"
  const EdgeLabelKey: string := "edge_label"

  /**
   * Read both files completely, nodes first. Either both lists, equal to what
   * each reader yields, or the first reader error: the node file's error wins
   * because its list is built first.
   */
  function CreateLists(nodesFile: CsvFile, edgesFile: CsvFile, headerNodes: bool, headerEdges: bool)
    : (r: Outcome<(seq<Row>, seq<Row>)>)
    ensures var ns, es := CsvRows(nodesFile, headerNodes), CsvRows(edgesFile, headerEdges);
      && (r.Ok? <==> ns.stop.None? && es.stop.None?)
      && (r.Ok? ==> r.value.0 == ns.items && r.value.1 == es.items)
      && (ns.stop.Some? ==> r == Err(ns.stop.value))
      && (ns.stop.None? && es.stop.Some? ==> r == Err(es.stop.value))
  {
    match Collect(CsvRows(nodesFile, headerNodes))
    case Err(e) => Err(e)
    case Ok(nodes) =>
      match Collect(CsvRows(edgesFile, headerEdges))
      case Err(e) => Err(e)
      case Ok(edges) => Ok((nodes, edges))
  }

  /**
   * One node row `(id, label, properties)` reshaped to `(id, attributes)`.
   * A row of any other width fails to destructure; properties text the
   * decoder rejects fails; with mapping on, the label is stored under
   * `node_label`, overriding a decoded key of that name and nothing else.
   */
  function NodeRow(row: Row, decode: Decoder, mapping: bool): (r: Outcome<Node<string>>)
    ensures |row| != 3 ==> r == Err(Unpack(3, |row|))
    ensures |row| == 3 ==> (r.Ok? <==> decode(row[2]).Some?)
    ensures |row| == 3 && decode(row[2]).None? ==> r == Err(Undecodable)
    ensures r.Ok? ==>
      var decoded := decode(row[2]).value;
      && r.value.id == row[0]
      && (mapping ==> Overrides(decoded, r.value.props, map[NodeLabelKey := Str(row[1])]))
      && (!mapping ==> r.value.props == decoded)
  {
    if |row| != 3 then Err(Unpack(3, |row|))
    else
      match decode(row[2])
      case None => Err(Undecodable)
      case Some(props) =>
        Ok(Node(row[0], if mapping then props[NodeLabelKey := Str(row[1])] else props))
  }

  /**
   * One edge row `(id, source, target, label, properties)` reshaped to
   * `(source, target, attributes)`; with mapping on, the edge id and label
   * are stored under `edge_id` and `edge_label`, overriding decoded keys of
   * those names and nothing else.
   */
  function EdgeRow(row: Row, decode: Decoder, mapping: bool): (r: Outcome<Edge<string>>)
    ensures |row| != 5 ==> r == Err(Unpack(5, |row|))
    ensures |row| == 5 ==> (r.Ok? <==> decode(row[4]).Some?)
    ensures |row| == 5 && decode(row[4]).None? ==> r == Err(Undecodable)
    ensures r.Ok? ==>
      var decoded := decode(row[4]).value;
      && r.value.source == row[1]
      && r.value.target == row[2]
      && (mapping ==> Overrides(decoded, r.value.props, map[EdgeIdKey := Str(row[0]), EdgeLabelKey := Str(row[3])]))
      && (!mapping ==> r.value.props == decoded)
  {
    if |row| != 5 then Err(Unpack(5, |row|))
    else
      match decode(row[4])
      case None => Err(Undecodable)
      case Some(props) =>
        var attrs := if mapping then props[EdgeIdKey := Str(row[0])][EdgeLabelKey := Str(row[3])] else props;
        Ok(Edge(row[1], row[2], attrs))
  }

  function NodeParser(decode: Decoder, mapping: bool): Row -> Outcome<Node<string>> {
    row => NodeRow(row, decode, mapping)
  }

  function EdgeParser(decode: Decoder, mapping: bool): Row -> Outcome<Edge<string>> {
    row => EdgeRow(row, decode, mapping)
  }

  /** What the node-format generator yields for a list of node rows. */
  function NodesFormat(rows: seq<Row>, decode: Decoder, mapping: bool): Stream<Node<string>> {
    MapRows(rows, NodeParser(decode, mapping))
  }

  /** What the edge-format generator yields for a list of edge rows. */
  function EdgesFormat(rows: seq<Row>, decode: Decoder, mapping: bool): Stream<Edge<string>> {
    MapRows(rows, EdgeParser(decode, mapping))
  }

  /**
   * The node-format generator yields one record per row, in row order, until
   * the first row that is not three fields wide or whose properties do not
   * decode; it raises that row's error and yields nothing for it or later rows.
   */
  lemma NodesFormatSpec(rows: seq<Row>, decode: Decoder, mapping: bool)
    ensures var s := NodesFormat(rows, decode, mapping);
      && |s.items| <= |rows|
      && (s.stop.None? <==> |s.items| == |rows|)
      && (forall i :: 0 <= i < |s.items| ==>
            && |rows[i]| == 3
            && decode(rows[i][2]).Some?
            && s.items[i].id == rows[i][0]
            && (mapping ==> Overrides(decode(rows[i][2]).value, s.items[i].props, map[NodeLabelKey := Str(rows[i][1])]))
            && (!mapping ==> s.items[i].props == decode(rows[i][2]).value))
      && (s.stop.Some? ==>
            var bad := rows[|s.items|];
            || (|bad| != 3 && s.stop == Some(Unpack(3, |bad|)))
            || (|bad| == 3 && decode(bad[2]).None? && s.stop == Some(Undecodable)))
  {
    MapRowsExact(rows, NodeParser(decode, mapping));
  }

  /**
   * The edge-format generator yields one record per row, in row order, with
   * source and target from the second and third fields, until the first row
   * that is not five fields wide or whose properties do not decode.
   */
  lemma EdgesFormatSpec(rows: seq<Row>, decode: Decoder, mapping: bool)
    ensures var s := EdgesFormat(rows, decode, mapping);
      && |s.items| <= |rows|
      && (s.stop.None? <==> |s.items| == |rows|)
      && (forall i :: 0 <= i < |s.items| ==>
            && |rows[i]| == 5
            && decode(rows[i][4]).Some?
            && s.items[i].source == rows[i][1]
            && s.items[i].target == rows[i][2]
            && (mapping ==> Overrides(decode(rows[i][4]).value, s.items[i].props,
                                      map[EdgeIdKey := Str(rows[i][0]), EdgeLabelKey := Str(rows[i][3])]))
            && (!mapping ==> s.items[i].props == decode(rows[i][4]).value))
      && (s.stop.Some? ==>
            var bad := rows[|s.items|];
            || (|bad| != 5 && s.stop == Some(Unpack(5, |bad|)))
            || (|bad| == 5 && decode(bad[4]).None? && s.stop == Some(Undecodable)))
  {
    MapRowsExact(rows, EdgeParser(decode, mapping));
  }

  /** The node-format generator's loop. */
  method ToNetworkxNodesFormat(rows: seq<Row>, decode: Decoder, mapping: bool) returns (s: Stream<Node<string>>)
    ensures s == NodesFormat(rows, decode, mapping)
  {
    ghost var f := NodeParser(decode, mapping);
    var yielded: seq<Node<string>> := [];
    var i := 0;
    while i < |rows|
      invariant i <= |rows|
      invariant MapRows(rows, f) == Stream(yielded + MapRows(rows[i..], f).items, MapRows(rows[i..], f).stop)
    {
      assert rows[i..][1..] == rows[i + 1..];
      var record := NodeRow(rows[i], decode, mapping);
      if record.Err? {
        return Stream(yielded, Some(record.error));
      }
      yielded := yielded + [record.value];
      i := i + 1;
    }
    s := Stream(yielded, None);
  }

  /** The edge-format generator's loop. */
  method ToNetworkxEdgesFormat(rows: seq<Row>, decode: Decoder, mapping: bool) returns (s: Stream<Edge<string>>)
    ensures s == EdgesFormat(rows, decode, mapping)
  {
    ghost var f := EdgeParser(decode, mapping);
    var yielded: seq<Edge<string>> := [];
    var i := 0;
    while i < |rows|
      invariant i <= |rows|
      invariant MapRows(rows, f) == Stream(yielded + MapRows(rows[i..], f).items, MapRows(rows[i..], f).stop)
    {
      assert rows[i..][1..] == rows[i + 1..];
      var record := EdgeRow(rows[i], decode, mapping);
      if record.Err? {
        return Stream(yielded, Some(record.error));
      }
      yielded := yielded + [record.value];
      i := i + 1;
    }
    s := Stream(yielded, None);
  }

  /** Populate the graph with every edge record, then every node record. */
  method NetworkxGraphFromLists(g: DiGraph<string>, nodes: Stream<Node<string>>, edges: Stream<Edge<string>>)
    returns (err: Option<Error>)
    requires g.Valid()
    modifies g
    ensures g.Valid()
    ensures Assembly(g.State(), err) == Assemble(old(g.State()), edges, nodes)
  {
    err := g.AddEdgesFrom(edges);
    if err.None? {
      err := g.AddNodesFrom(nodes);
    }
  }

  /**
   * The list pipeline as the script runs it: read both files with headers,
   * reshape with label mapping on, and assemble a fresh graph.
   */
  function ListPipeline(nodesFile: CsvFile, edgesFile: CsvFile, decode: Decoder): (r: Assembly<string>)
    ensures CreateLists(nodesFile, edgesFile, true, true).Err? ==>
      r == Assembly(Empty(), Some(CreateLists(nodesFile, edgesFile, true, true).error))
  {
    match CreateLists(nodesFile, edgesFile, true, true)
    case Err(e) => Assembly(Empty(), Some(e))
    case Ok(lists) =>
      Assemble(Empty(), EdgesFormat(lists.1, decode, true), NodesFormat(lists.0, decode, true))
  }

  /**
   * All or nothing: the list pipeline ends without an error exactly when both
   * files are read and every node row and every edge row reshapes.
   */
  lemma ListPipelineSucceedsIff(nodesFile: CsvFile, edgesFile: CsvFile, decode: Decoder)
    ensures var lists := CreateLists(nodesFile, edgesFile, true, true);
      ListPipeline(nodesFile, edgesFile, decode).error.None? <==>
        && lists.Ok?
        && (forall i :: 0 <= i < |lists.value.0| ==> NodeRow(lists.value.0[i], decode, true).Ok?)
        && (forall i :: 0 <= i < |lists.value.1| ==> EdgeRow(lists.value.1[i], decode, true).Ok?)
  {
    var lists := CreateLists(nodesFile, edgesFile, true, true);
    if lists.Ok? {
      MapRowsCleanIffAllConvert(lists.value.0, NodeParser(decode, true));
      MapRowsCleanIffAllConvert(lists.value.1, EdgeParser(decode, true));
    }
  }

  /**
   * With repeated source and target, the graph holds one edge for the pair,
   * and the last edge row for it wins on every key it carries, its edge id
   * and label included.
   */
  lemma ListPipelineLaterEdgeWins(nodesFile: CsvFile, edgesFile: CsvFile, decode: Decoder, j: nat)
    requires CreateLists(nodesFile, edgesFile, true, true).Ok?
    requires ListPipeline(nodesFile, edgesFile, decode).error.None?
    requires var es := EdgesFormat(CreateLists(nodesFile, edgesFile, true, true).value.1, decode, true).items;
      && j < |es|
      && forall i :: j < i < |es| ==> (es[i].source, es[i].target) != (es[j].source, es[j].target)
    ensures var rows := CreateLists(nodesFile, edgesFile, true, true).value.1;
      var g := ListPipeline(nodesFile, edgesFile, decode).graph;
      && j < |rows| && |rows[j]| == 5
      && var p := (rows[j][1], rows[j][2]);
      && p in g.edge
      && EdgeIdKey in g.edge[p] && g.edge[p][EdgeIdKey] == Str(rows[j][0])
      && EdgeLabelKey in g.edge[p] && g.edge[p][EdgeLabelKey] == Str(rows[j][3])
  {
    var lists := CreateLists(nodesFile, edgesFile, true, true).value;
    var rows := lists.1;
    var edges := EdgesFormat(rows, decode, true);
    var nodes := NodesFormat(lists.0, decode, true);
    var es, ns := edges.items, nodes.items;
    assert ListPipeline(nodesFile, edgesFile, decode) == Assemble(Empty(), edges, nodes);
    assert edges.stop.None?;
    assert ListPipeline(nodesFile, edgesFile, decode).graph == AddNodes(AddEdges(Empty(), es), ns);
    EdgesFormatSpec(rows, decode, true);
    assert |rows[j]| == 5 && es[j].source == rows[j][1] && es[j].target == rows[j][2];
    assert EdgeIdKey in es[j].props && es[j].props[EdgeIdKey] == Str(rows[j][0]);
    assert EdgeLabelKey in es[j].props && es[j].props[EdgeLabelKey] == Str(rows[j][3]);
    AssembledLastEdgeWins(es, ns, j);
  }

  /**
   * One protein node and one interaction edge to an unlisted node: the graph
   * has the protein with its mass and label, the other endpoint with no
   * attributes, and one edge carrying the edge's id and label.
   */
  lemma ProteinInteractionScenario(decode: Decoder)
    requires decode("{\"mass\": 10}") == Some(map["mass" := Int(10)])
    requires decode("{}") == Some(map[])
    ensures ListPipeline(
        Records([["id", "label", "properties"], ["1", "protein", "{\"mass\": 10}"]]),
        Records([["id", "source", "target", "label", "properties"], ["e1", "1", "2", "interacts", "{}"]]),
        decode)
      == Assembly(
        GraphState(
          map["1" := map["mass" := Int(10), NodeLabelKey := Str("protein")], "2" := map[]],
          map[("1", "2") := map[EdgeIdKey := Str("e1"), EdgeLabelKey := Str("interacts")]]),
        None)
  {
    var nodeRow: Row := ["1", "protein", "{\"mass\": 10}"];
    var edgeRow: Row := ["e1", "1", "2", "interacts", "{}"];
    var n := Node("1", map["mass" := Int(10), NodeLabelKey := Str("protein")]);
    var e := Edge("1", "2", map[EdgeIdKey := Str("e1"), EdgeLabelKey := Str("interacts")]);
    var nodesFile := Records([["id", "label", "properties"], nodeRow]);
    var edgesFile := Records([["id", "source", "target", "label", "properties"], edgeRow]);
    assert CreateLists(nodesFile, edgesFile, true, true) == Ok(([nodeRow], [edgeRow]));
    ScenarioRecords(decode, nodeRow, edgeRow, n, e);
    ScenarioGraph(n, e);
  }

  /** The scenario's two rows reshape to one node record and one edge record. */
  lemma ScenarioRecords(decode: Decoder, nodeRow: Row, edgeRow: Row, n: Node<string>, e: Edge<string>)
    requires decode("{\"mass\": 10}") == Some(map["mass" := Int(10)])
    requires decode("{}") == Some(map[])
    requires nodeRow == ["1", "protein", "{\"mass\": 10}"]
    requires edgeRow == ["e1", "1", "2", "interacts", "{}"]
    requires n == Node("1", map["mass" := Int(10), NodeLabelKey := Str("protein")])
    requires e == Edge("1", "2", map[EdgeIdKey := Str("e1"), EdgeLabelKey := Str("interacts")])
    ensures NodesFormat([nodeRow], decode, true) == Stream([n], None)
    ensures EdgesFormat([edgeRow], decode, true) == Stream([e], None)
  {
    assert NodeParser(decode, true)(nodeRow) == Ok(n);
    assert EdgeParser(decode, true)(edgeRow) == Ok(e);
    assert [nodeRow][1..] == [] && [edgeRow][1..] == [];
    assert MapRows([], NodeParser(decode, true)) == Stream([], None);
    assert MapRows([], EdgeParser(decode, true)) == Stream([], None);
  }

  /** Inserting the scenario's edge, then its node, into an empty graph. */
  lemma ScenarioGraph(n: Node<string>, e: Edge<string>)
    requires n == Node("1", map["mass" := Int(10), NodeLabelKey := Str("protein")])
    requires e == Edge("1", "2", map[EdgeIdKey := Str("e1"), EdgeLabelKey := Str("interacts")])
    ensures Assemble(Empty(), Stream([e], None), Stream([n], None))
      == Assembly(
        GraphState(
          map["1" := map["mass" := Int(10), NodeLabelKey := Str("protein")], "2" := map[]],
          map[("1", "2") := map[EdgeIdKey := Str("e1"), EdgeLabelKey := Str("interacts")]]),
        None)
  {
    var empty: GraphState<string> := Empty();
    assert [e][..0] == [] && [n][..0] == [];
    MergeIntoEmpty(e.props);
    MergeIntoEmpty(n.props);
    var h := AddEdge(empty, e);
    assert AddEdges(empty, [e]) == h;
    assert h.edge == map[("1", "2") := e.props];
    assert h.node == map["1" := map[], "2" := map[]];
    assert AddNodes(h, [n]) == AddNode(h, n);
  }
}
