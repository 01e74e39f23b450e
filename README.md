# Protein-interaction graph builders, modelled in Dafny

Two profiling scripts turn a node CSV (`id,label,properties`) and an edge
CSV (`id,source,target,label,properties`) into a directed graph. The
`properties` field holds a Python mapping literal. This project models the
reshaping step that both scripts share in spirit and proves what it promises.

- **List variant** (`scripts/SC1_profiling_lists.py`). A generator reads each
  file, skipping one header row. `create_lists` materialises both files.
  Two generators destructure each row by position, evaluate the properties
  text, and (with label mapping on) store the label, or the edge id and
  label, under the fixed keys `node_label`, `edge_id` and `edge_label`. The
  graph is then populated with every edge record, then every node record.
- **Dataframe variant** (`scripts/SC2_profiling_pandas_dataframe.py`).
  `row_to_dictionary` collapses every column that is not kept intact into
  one dict per row (`temp_dicts`). `merge_properties` evaluates the
  `properties` column in place and unions each row's dict with its
  `temp_dicts` dict, the latter winning on a shared key.
  `change_column_names` renames the columns to `source`, `target` and
  `properties`. `networkx_graph_from_pandas` inserts every edge row, then
  every node row. `pipeline` fixes which columns are kept and how they are
  renamed.

Modules:

- `Wrappers`: `Option` and `Result`.
- `Literals`: Python literal values, property dicts, and `Merge`
  (`{**a, **b}` / `dict.update`).
- `Streams`: the pipeline's errors. A generator that may raise partway is
  modelled as the records it yielded plus how it stopped (`MapRows`).
- `CsvReader`: the row generator.
- `ListBuilder`: the list variant.
- `Frames`: a dataframe as column labels plus rows, with the label-based
  operations the code uses.
- `DataframeBuilder`: the dataframe variant. `Frame.MergeProperties`
  updates a frame in place, as `merge_properties` does.
- `Graph`: the directed graph. `DiGraph` is mutated by the two bulk
  insertions. Pure functions state what a sequence of insertions leaves
  behind.

The literal evaluator is a parameter, `decode: string -> Option<Props>`.
The graph library's insertion semantics are an explicit assumption, stated
once in `Graph.AddEdge` and `Graph.AddNode`:

- inserting an edge creates each missing endpoint with an empty dict, then
  updates the edge's dict with the new attributes;
- inserting a node creates it if absent, then updates its dict.

"Update" is `dict.update`: on a shared key the newer value wins and other
keys stay. This is how the graph library behaves. It is not an overwrite:
when a node or edge is inserted again, keys that only the earlier row
carries stay on it.

Under this assumption the edge-before-node order is not what keeps the
authored node attributes. `Graph.NodesFirstSameGraph` proves that inserting
the nodes first yields the same nodes, edges and attributes from an empty
graph. The order in which the library lists them is not modelled; with the
code's order, edge endpoints are listed before nodes that only node rows
mention. Edge insertion only creates missing endpoints and never resets a
node's dict. The order the code uses is still modelled and proved
(`Graph.Assemble`, `Graph.EdgesBeforeNodes`).

## Model

| member | source | states |
|---|---|---|
| CsvReader.CsvRows | scripts/SC1_profiling_lists.py:100-106 | An unreadable file raises a file-access error. With a header expected, an empty file raises. Otherwise every row after the skipped header (or every row without one) is yielded, in file order, and the generator ends cleanly. |
| CsvReader.LoadCsvGenerator | scripts/SC2_profiling_pandas_dataframe.py:134-140 | The reader loop (identical in both scripts) yields exactly what `CsvRows` describes. Its invariant is that the rows yielded so far are the file's rows from the first data row up to the cursor. |
| Streams.MapRowsExact | scripts/SC1_profiling_lists.py:120-133 | A row-by-row generator yields the conversion of each row, in order, for the longest prefix that converts. It ends cleanly only if every row converts; otherwise it raises exactly the error of the first row that fails. |
| Streams.MapRowsCleanIffAllConvert | scripts/SC1_profiling_lists.py:136-154 | Such a generator ends without an exception exactly when every row converts. |
| Streams.Collect | scripts/SC1_profiling_lists.py:114-115 | Materialising a generator succeeds exactly when it ends cleanly. The list is then everything the generator yielded, in order; otherwise the exception it raised propagates. |
| ListBuilder.CreateLists | scripts/SC1_profiling_lists.py:109-117 | Both lists are returned exactly when both readers finish, each equal element by element to its reader's output. The node file's error takes precedence; the edge file's error surfaces only when the node file reads cleanly. |
| ListBuilder.NodeRow | scripts/SC1_profiling_lists.py:120-133 | A row that is not 3 fields wide fails to unpack, and undecodable properties fail. Otherwise the id is the first field. With mapping on, the attributes are the decoded map with `node_label` set to the label, overriding a decoded `node_label` and keeping every other key. With mapping off, they are the decoded map exactly. |
| ListBuilder.EdgeRow | scripts/SC1_profiling_lists.py:136-154 | A row that is not 5 fields wide fails to unpack, and undecodable properties fail. Source and target are the second and third fields. With mapping on, `edge_id` and `edge_label` are set from the first and fourth fields and every other decoded key is kept. With mapping off, the attributes are the decoded map exactly. |
| ListBuilder.NodesFormatSpec | scripts/SC1_profiling_lists.py:120-133 | The node generator yields one record per row, in row order, each with the row's first field as id and the attributes above. It stops at the first row of the wrong width or with undecodable properties, raising that row's error and yielding nothing for it or for later rows. |
| ListBuilder.EdgesFormatSpec | scripts/SC1_profiling_lists.py:136-154 | The same for edges: one `(source, target, attributes)` per row, in order, until the first row of the wrong width or with undecodable properties. |
| ListBuilder.ToNetworkxNodesFormat | scripts/SC1_profiling_lists.py:120-133 | The generator's loop yields exactly `NodesFormat`. Its invariant is that what is yielded so far, followed by the rest of the rows, gives the whole stream. |
| ListBuilder.ToNetworkxEdgesFormat | scripts/SC1_profiling_lists.py:136-154 | The edge generator's loop yields exactly `EdgesFormat`. |
| ListBuilder.NetworkxGraphFromLists | scripts/SC1_profiling_lists.py:157-167 | The graph ends as inserting every edge record, then every node record, leaves it. An exception from the edge generator stops the run before any node is inserted. The graph stays closed (every edge joins two nodes). |
| ListBuilder.ListPipeline | scripts/SC1_profiling_lists.py:209-217 | A file-reading error ends the script's run with an empty graph and that error. |
| ListBuilder.ListPipelineSucceedsIff | scripts/SC1_profiling_lists.py:209-217 | The script's run ends without an error exactly when both files read and every node row and every edge row reshapes. |
| ListBuilder.ListPipelineLaterEdgeWins | scripts/SC1_profiling_lists.py:209-217 | Several edge rows with the same source and target give one edge. The last such row's `edge_id` and `edge_label` are on it. |
| ListBuilder.ProteinInteractionScenario | scripts/SC1_profiling_lists.py:209-217 | One protein row plus one interaction to an unlisted node gives two nodes. The protein has its mass and label; the other node has an empty dict. The one edge carries the edge's id and label. |
| Graph.Assemble | scripts/SC1_profiling_lists.py:161-165 | An edge-generator error is the run's error. Otherwise the node generator's outcome is the run's outcome. |
| Graph.DiGraph.constructor | scripts/SC1_profiling_lists.py:216 | A new graph is empty. |
| Graph.DiGraph.AddEdgesFrom | scripts/SC1_profiling_lists.py:162 | Consumes the edge generator, inserting each record in order, and re-raises its error. The graph stays closed. |
| Graph.DiGraph.AddNodesFrom | scripts/SC1_profiling_lists.py:165 | Consumes the node generator, inserting each record in order, and re-raises its error. The graph stays closed. |
| Graph.AddEdgesNodes | scripts/SC1_profiling_lists.py:162 | Edge insertion adds exactly the mentioned endpoints. New ones get an empty dict; nodes already present are untouched. |
| Graph.AddEdgesEdges | scripts/SC1_profiling_lists.py:162 | After edge insertion the edges are the old ones plus the mentioned pairs. Each pair's dict is its old dict updated by that pair's rows in row order. |
| Graph.AddNodesNodes | scripts/SC1_profiling_lists.py:165 | Node insertion leaves edges alone and adds exactly the mentioned ids. Each node's dict is its old dict updated by that node's rows in row order. |
| Graph.InsertionsStayClosed | scripts/SC1_profiling_lists.py:161-165 | Both insertions keep every edge between nodes of the graph. |
| Graph.EdgesBeforeNodes | scripts/SC2_profiling_pandas_dataframe.py:203-223 | Edges first, then nodes, from an empty graph: the nodes are the endpoints plus the node ids. A node that only edges mention keeps an empty dict. A node with node rows carries exactly those rows' attributes. |
| Graph.AssembledEdges | scripts/SC2_profiling_pandas_dataframe.py:203-223 | From an empty graph the edges are exactly the mentioned pairs, each with its rows' attributes merged in row order; node insertion does not touch them. |
| Graph.NodesFirstSameGraph | scripts/SC1_profiling_lists.py:161-165 | Under the assumed update semantics, inserting the nodes before the edges gives the same nodes, edges and attributes as the order the code uses. |
| Graph.LastNodeRowWins | scripts/SC1_profiling_lists.py:165 | The last node row for an id wins on every key it carries. If it is the only row for that id, its attributes are the node's attributes. |
| Graph.AssembledLastEdgeWins | scripts/SC1_profiling_lists.py:161-165 | The last edge row for a pair wins on every key it carries, and the pair is one edge of the graph. |
| Graph.AssembleIdempotent | scripts/SC1_profiling_lists.py:161-165 | Running both insertions again with the same records into the graph already built changes nothing. |
| Literals.Merge | scripts/SC2_profiling_pandas_dataframe.py:171 | `{**c1, **c2}`: the keys are those of both dicts. `c2`'s values win on shared keys, and the other keys of `c1` keep their values. |
| Frames.ZipDict | scripts/SC2_profiling_pandas_dataframe.py:160 | `dict(zip(columns, row))` has exactly the listed columns as keys. |
| Frames.ZipDictGet | scripts/SC2_profiling_pandas_dataframe.py:160 | With distinct columns, each key maps to the cell beside it. |
| Frames.SetColumn | scripts/SC2_profiling_pandas_dataframe.py:169-172 | Assigning a column replaces that column's cell in every row and leaves every other cell, the labels and the row count unchanged. |
| Frames.Drop | scripts/SC2_profiling_pandas_dataframe.py:174 | Dropping labels that are all present keeps the other columns in order, cells included. |
| Frames.RenameGet | scripts/SC2_profiling_pandas_dataframe.py:178 | When the renamed labels are distinct, a row reads under a column's new label what it read under the old one. |
| DataframeBuilder.RowToDictionary | scripts/SC2_profiling_pandas_dataframe.py:153-164 | A keep argument that is neither a list nor a dict fails. A kept label that is not a column fails the drop and names the missing labels. A kept `temp_dicts` column clashes with the collapsed column. Otherwise the result is well formed with the same number of rows. |
| DataframeBuilder.RowToDictionarySpec | scripts/SC2_profiling_pandas_dataframe.py:153-164 | The collapsed table has the kept columns, in order, with their cells unchanged, plus `temp_dicts` as the last column. Labels stay distinct. |
| DataframeBuilder.TempDictSpec | scripts/SC2_profiling_pandas_dataframe.py:159-162 | Each row's `temp_dicts` dict maps exactly the non-kept column names to that row's cells in those columns. |
| DataframeBuilder.DecodeAllSpec | scripts/SC2_profiling_pandas_dataframe.py:169 | Evaluating a column succeeds exactly when every cell evaluates, and each cell becomes its own evaluation. |
| DataframeBuilder.EvaluateColumn | scripts/SC2_profiling_pandas_dataframe.py:169 | The evaluation loop returns exactly the column evaluation. It stops at the first cell that does not evaluate. |
| DataframeBuilder.MergeAllSpec | scripts/SC2_profiling_pandas_dataframe.py:170-172 | The union comprehension succeeds exactly when both cells of every row are dicts. Each row then gets the union with the second dict winning. |
| DataframeBuilder.UnionColumns | scripts/SC2_profiling_pandas_dataframe.py:170-172 | The comprehension's loop returns exactly the row-by-row union. |
| DataframeBuilder.MergedProperties | scripts/SC2_profiling_pandas_dataframe.py:167-174 | On success the result is well formed with the same number of rows. On any outcome the frame passed in keeps its labels and row count. |
| DataframeBuilder.MergedPropertiesSucceedsIff | scripts/SC2_profiling_pandas_dataframe.py:167-174 | The merge succeeds exactly when both columns exist, every keep cell evaluates and every merge cell is a dict. |
| DataframeBuilder.MergedPropertiesCells | scripts/SC2_profiling_pandas_dataframe.py:167-174 | On success each row's keep cell is its evaluated dict updated by its merge-column dict. Every other cell is unchanged and the merge column is gone. |
| DataframeBuilder.Frame.MergeProperties | scripts/SC2_profiling_pandas_dataframe.py:167-174 | The frame is left as the column assignments that ran leave it (none if the keep column is missing or a cell does not evaluate). It returns or raises what `MergedProperties` says. |
| DataframeBuilder.ChangeColumnNames | scripts/SC2_profiling_pandas_dataframe.py:177-178 | Labels in the map are renamed to their image and other labels are kept, position by position. The rows, their order and their cells are untouched. |
| DataframeBuilder.ChangeColumnNamesGet | scripts/SC2_profiling_pandas_dataframe.py:177-178 | When the new labels are distinct, each row reads under a column's new label what it read under the old one. |
| DataframeBuilder.DfToNetworkx | scripts/SC2_profiling_pandas_dataframe.py:181-194 | The node and edge conversions compute exactly `Conversion`. The merge step runs on a frame of its own, updated in place. |
| DataframeBuilder.ConversionSucceedsIff | scripts/SC2_profiling_pandas_dataframe.py:181-194 | For distinct labels, with every kept label present and `properties` kept, a conversion succeeds exactly when every properties cell evaluates. |
| DataframeBuilder.ConversionColumns | scripts/SC2_profiling_pandas_dataframe.py:181-194 | A successful conversion has exactly the kept columns, renamed, in their original order. |
| DataframeBuilder.ConversionRow | scripts/SC2_profiling_pandas_dataframe.py:181-194 | In a successful conversion each row keeps its kept cells under their new labels. Its properties become its evaluated dict updated by the dict of its non-kept columns. |
| DataframeBuilder.NodeConfiguration | scripts/SC2_profiling_pandas_dataframe.py:233-246 | With the pipeline's node configuration, conversion succeeds exactly when every properties cell evaluates. The result then has exactly the distinct columns `source` and `properties`. `source` holds each row's UniProt ID; `properties` holds its evaluated dict updated by its other columns. |
| DataframeBuilder.EdgeConfiguration | scripts/SC2_profiling_pandas_dataframe.py:235-251 | The same for edges: exactly `source`, `target` and `properties`, with `Source ID` and `Target ID` carried into `source` and `target`. |
| DataframeBuilder.EdgeTuplesSpec | scripts/SC2_profiling_pandas_dataframe.py:204-212 | Tuple `i` holds row `i`'s source, target and properties dict. Every row yields one exactly when every properties cell is a dict; otherwise the stream stops at the first row whose cell is not a dict, having yielded one tuple for each earlier row. |
| DataframeBuilder.NodeTuplesSpec | scripts/SC2_profiling_pandas_dataframe.py:215-223 | The same for `(source, properties)` node tuples: one per row, stopping at the first row whose properties cell is not a dict. |
| DataframeBuilder.NetworkxGraphFromPandas | scripts/SC2_profiling_pandas_dataframe.py:197-224 | The graph ends as inserting every edge tuple, then every node tuple, leaves it. A missing column or a failing edge tuple stops the run before any node is inserted. |
| DataframeBuilder.Pipeline | scripts/SC2_profiling_pandas_dataframe.py:241-253 | Both conversions run before the graph is created, and a fresh, closed graph is populated. The result is what `PandasPipeline` describes. |
| DataframeBuilder.PandasPipeline | scripts/SC2_profiling_pandas_dataframe.py:227-255 | A failing node conversion ends the run with an empty graph and that error. |
| DataframeBuilder.PandasPipelineSucceedsIff | scripts/SC2_profiling_pandas_dataframe.py:227-255 | On tables with the configured columns, the run ends without an error exactly when every properties cell of both tables evaluates. |
| DataframeBuilder.PandasPipelineRowsInGraph | scripts/SC2_profiling_pandas_dataframe.py:227-255 | After a successful run, every edge row is an edge from its Source ID to its Target ID, and every node row's UniProt ID is a node. |
| DataframeBuilder.ConvertedEdgeTuples | scripts/SC2_profiling_pandas_dataframe.py:204-212 | A converted edge table yields one tuple per row, without error, carrying the row's Source ID and Target ID. |
| DataframeBuilder.ConvertedNodeTuples | scripts/SC2_profiling_pandas_dataframe.py:215-223 | A converted node table yields one tuple per row, without error, carrying the row's UniProt ID. |

## Left out

- `scripts/Template_profiling_datastructure.py` is glue around the profilers. Its dictionary variant imports `pipeline_functions`, which is not part of this model, so that variant is not modelled.
- Console, logging and reporting helpers (console clearing, logger set-up, metadata and graph printing, the size report) and the `__main__` blocks with their memray and cProfile runs. These are console, file and profiler I/O.
- The CSV tokeniser. A file is given as the rows it splits into, or as unreadable.
- The literal evaluator's grammar. It is a parameter that yields a string-keyed mapping or nothing.
- Literals.Value has no tuple, set, bytes or complex values. Properties holding them (such as `{"pos": (1, 2)}`) cannot be represented; a decoder must reject them, so the model raises where the code succeeds.
- A mapping literal with non-string keys (such as `{1: 2}`) is treated as not evaluating, so the model raises `Undecodable`. In the code it passes the label assignment and the dict union and reaches the graph.
- A literal that is not a mapping is treated as not evaluating. In the code, with label mapping on or in the dict union, it fails at the item assignment or the union with a different exception type. With label mapping off (`mapping_properties=False`), the list variant yields it unchanged and nothing fails there.
- `from_csv_to_pandasdf` / `create_dataframes` (`read_csv` with its type inference). The dataframe pipeline takes the two loaded tables as input. Cells are Python literal values, and a float cell's NaN is not modelled (reals have no NaN).
- Duplicate column labels in a table. The lemmas assume distinct labels. A kept column already named `temp_dicts` is reported as an error (`ColumnClash`); pandas would produce a duplicate label.
- DataframeBuilder.TempDict: `to_numpy()` casts the collapsed columns to one common dtype, so with an int column and a float column both collapsed, an int cell reaches `temp_dicts` as a float. The model keeps each cell's own value (`Int` stays `Int`).
- Python's key equality across numeric types. Dict keys and graph nodes treat `1`, `1.0` and `True` as the same key. `DiGraph<Value>` keeps `Int(1)`, `Float(1.0)` and `Bool(true)` as different nodes, for example when `Source ID` and `UniProt ID` are read with different dtypes.
- The order in which the graph library lists nodes and edges. The graph state is maps, so insertion order is not captured.
- Row index alignment in `concat`: tables use the default positional index.
- DataframeBuilder.NodeTuples: a node properties cell that is not a dict is an error here. The graph library would take the whole tuple as a node id if it is hashable.
- Graph.DiGraph.AddEdgesFrom: when an edge's attributes are not a dict, the library adds the endpoints before failing. The model raises before touching the graph.
- The graph library itself. Its insertion semantics are the explicit assumption stated above.
- ListBuilder.ListPipeline and DataframeBuilder.Pipeline: in the code an error propagates and no graph is returned. The model returns the error beside a graph. For a file error or a conversion error that graph is empty. For a row error during insertion it is the graph as far as insertion got: the edges inserted before the failing edge row, or all edges and the nodes before the failing node row.
- The shared mutable default `graph_type=nx.DiGraph()`. Every modelled run starts from a fresh graph.
- Equality of the graphs the two variants build. The code does not promise it: the list variant writes fixed label keys and the dataframe variant writes the remaining column names.
- File-access timing. The reader fails before yielding anything when the file cannot be opened. Python opens it lazily, at the first request for a row.
