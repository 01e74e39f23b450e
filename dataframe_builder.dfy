/**
 * The dataframe variant of the record reshaping. The columns that are not
 * kept intact are collapsed into one dict per row; that dict is merged into
 * the evaluated `properties` cell; the columns are renamed to the labels the
 * graph builder reads; and the graph is populated from the renamed tables,
 * all edge rows before any node row.
 */
module DataframeBuilder {
  import opened Wrappers
  import opened Literals
  import opened Streams
  import opened Frames
  import opened Graph

  /** The label of the collapsed column. */
  const TempDicts: string := "temp_dicts"
  /** The properties column, under the same label before and after renaming. */
  const PropertiesColumn: string := "properties"
  const SourceColumn: string := "source"
  const TargetColumn: string := "target"

  /**
   * The `columns_to_keep_intact` argument: a list of labels, a dict (only its
   * keys are used), or a value of any other type.
   */
  datatype KeepSpec = KeepList(names: seq<string>) | KeepDict(keys: set<string>) | KeepOther

  function KeptNames(keep: KeepSpec): set<string>
    requires !keep.KeepOther?
  {
    if keep.KeepList? then set n | n in keep.names else keep.keys
  }

  /** The labels of a table, as a set. */
  function Labels(t: Table): set<string> {
    set c | c in t.columns
  }

  // ----- row_to_dictionary -----

  /** One row's collapsed dict: `dict(zip(remaining columns, row))`. */
  function TempDict(cols: seq<string>, row: seq<Value>, kept: set<string>): Props
    requires |cols| == |row|
  {
    SelectWidth(cols, row, kept, false);
    ZipDict(Select(cols, cols, kept, false), Select(cols, row, kept, false))
  }

  /**
   * With distinct labels, a row's collapsed dict maps exactly the columns that
   * are not kept to the row's cells under them.
   */
  lemma TempDictSpec(cols: seq<string>, row: seq<Value>, kept: set<string>)
    requires |cols| == |row| && Distinct(cols)
    ensures TempDict(cols, row, kept).Keys == set c | c in cols && c !in kept
    ensures forall c :: c in cols && c !in kept ==> Some(TempDict(cols, row, kept)[c]) == Get(cols, row, c)
  {
    SelectLabels(cols, kept, false);
    SelectDistinct(cols, kept, false);
    forall c | c in cols && c !in kept
      ensures Some(TempDict(cols, row, kept)[c]) == Get(cols, row, c)
    {
      SelectGet(cols, row, kept, false, c);
      ZipDictGet(Select(cols, cols, kept, false), Select(cols, row, kept, false), c);
    }
  }

  /**
   * `row_to_dictionary`: drop every column that is not kept intact, collapsing
   * them into a per-row dict appended as the last column, `temp_dicts`.
   * A keep argument of another type leaves the remaining columns unbound; a
   * kept label that is not a column fails the drop.
   */
  function RowToDictionary(t: Table, keep: KeepSpec): (r: Outcome<Table>)
    requires WellFormed(t)
    ensures keep.KeepOther? ==> r == Err(UnboundKeep)
    ensures !keep.KeepOther? && !(KeptNames(keep) <= Labels(t)) ==>
      r == Err(MissingColumns(KeptNames(keep) - Labels(t)))
    ensures !keep.KeepOther? && KeptNames(keep) <= Labels(t) && TempDicts in KeptNames(keep) ==>
      r == Err(ColumnClash(TempDicts))
    ensures !keep.KeepOther? && KeptNames(keep) <= Labels(t) && TempDicts !in KeptNames(keep) ==>
      r.Ok? && WellFormed(r.value) && |r.value.rows| == |t.rows|
  {
    if keep.KeepOther? then Err(UnboundKeep)
    else
      var kept := KeptNames(keep);
      if !(kept <= Labels(t)) then Err(MissingColumns(kept - Labels(t)))
      else if TempDicts in kept then Err(ColumnClash(TempDicts))
      else
        var r := Table(
          Select(t.columns, t.columns, kept, true) + [TempDicts],
          seq(|t.rows|, i requires 0 <= i < |t.rows| =>
            Select(t.columns, t.rows[i], kept, true) + [Dict(TempDict(t.columns, t.rows[i], kept))]));
        assert WellFormed(r) by {
          forall i | 0 <= i < |t.rows|
            ensures |r.rows[i]| == |r.columns|
          {
            SelectWidth(t.columns, t.rows[i], kept, true);
          }
        }
        Ok(r)
  }

  /**
   * The collapsed table keeps the kept columns in their order with their
   * cells unchanged, and adds `temp_dicts` as its last column, holding each
   * row's collapsed dict; labels stay distinct.
   */
  lemma RowToDictionarySpec(t: Table, keep: KeepSpec)
    requires WellFormed(t) && Distinct(t.columns)
    requires RowToDictionary(t, keep).Ok?
    ensures var r := RowToDictionary(t, keep).value;
      && r.columns == Select(t.columns, t.columns, KeptNames(keep), true) + [TempDicts]
      && Distinct(r.columns)
      && (forall c :: c in r.columns <==> c in KeptNames(keep) || c == TempDicts)
      && forall i :: 0 <= i < |t.rows| ==>
           && (forall c :: c in KeptNames(keep) ==> Get(r.columns, r.rows[i], c) == Get(t.columns, t.rows[i], c))
           && Get(r.columns, r.rows[i], TempDicts) == Some(Dict(TempDict(t.columns, t.rows[i], KeptNames(keep))))
  {
    var r := RowToDictionary(t, keep).value;
    var kept := KeptNames(keep);
    var s := Select(t.columns, t.columns, kept, true);
    SelectLabels(t.columns, kept, true);
    SelectDistinct(t.columns, kept, true);
    assert TempDicts !in s;
    forall i, j | 0 <= i < j < |r.columns|
      ensures r.columns[i] != r.columns[j]
    {
      assert r.columns[i] == s[i];
      if j < |s| {
        assert r.columns[j] == s[j];
      }
    }
    forall i | 0 <= i < |t.rows|
      ensures forall c :: c in kept ==> Get(r.columns, r.rows[i], c) == Get(t.columns, t.rows[i], c)
      ensures Get(r.columns, r.rows[i], TempDicts) == Some(Dict(TempDict(t.columns, t.rows[i], kept)))
    {
      var row := Select(t.columns, t.rows[i], kept, true);
      var d := Dict(TempDict(t.columns, t.rows[i], kept));
      SelectWidth(t.columns, t.rows[i], kept, true);
      assert r.rows[i] == row + [d];
      forall c | c in kept
        ensures Get(r.columns, r.rows[i], c) == Get(t.columns, t.rows[i], c)
      {
        GetAppend(s, row, TempDicts, d, c);
        SelectGet(t.columns, t.rows[i], kept, true, c);
      }
      GetAppend(s, row, TempDicts, d, TempDicts);
    }
  }

  // ----- merge_properties -----

  /** `literal_eval` on one cell: only text can be evaluated. */
  function DecodeCell(cell: Value, decode: Decoder): Option<Props> {
    if cell.Str? then decode(cell.s) else None
  }

  /** `series.map(literal_eval)`: every cell evaluated, or nothing if one cannot be. */
  function DecodeAll(cells: seq<Value>, decode: Decoder): (r: Option<seq<Props>>)
    ensures r.Some? ==> |r.value| == |cells|
  {
    if cells == [] then Some([])
    else
      match (DecodeCell(cells[0], decode), DecodeAll(cells[1..], decode))
      case (Some(p), Some(ps)) => Some([p] + ps)
      case _ => None
  }

  /** The column evaluates exactly when every cell does, each to its own evaluation. */
  lemma {:induction false} DecodeAllSpec(cells: seq<Value>, decode: Decoder)
    ensures DecodeAll(cells, decode).Some? <==> forall i :: 0 <= i < |cells| ==> DecodeCell(cells[i], decode).Some?
    ensures DecodeAll(cells, decode).Some? ==>
      forall i :: 0 <= i < |cells| ==> DecodeCell(cells[i], decode) == Some(DecodeAll(cells, decode).value[i])
  {
    if cells != [] {
      DecodeAllSpec(cells[1..], decode);
      assert forall i :: 1 <= i < |cells| ==> cells[i] == cells[1..][i - 1];
    }
  }

  /** `[{**c1, **c2} for c1, c2 in zip(keep, merge)]`: both cells of each row must be dicts; `c2` wins. */
  function MergeAll(keep: seq<Value>, merge: seq<Value>): (r: Option<seq<Value>>)
    requires |keep| == |merge|
    ensures r.Some? ==> |r.value| == |keep|
  {
    if keep == [] then Some([])
    else if !keep[0].Dict? || !merge[0].Dict? then None
    else
      match MergeAll(keep[1..], merge[1..])
      case None => None
      case Some(vs) => Some([Dict(Merge(keep[0].entries, merge[0].entries))] + vs)
  }

  /** The merge succeeds exactly when every cell of both columns is a dict, and then merges row by row. */
  lemma {:induction false} MergeAllSpec(keep: seq<Value>, merge: seq<Value>)
    requires |keep| == |merge|
    ensures MergeAll(keep, merge).Some? <==> forall i :: 0 <= i < |keep| ==> keep[i].Dict? && merge[i].Dict?
    ensures MergeAll(keep, merge).Some? ==> forall i :: 0 <= i < |keep| ==>
      MergeAll(keep, merge).value[i] == Dict(Merge(keep[i].entries, merge[i].entries))
  {
    if keep != [] {
      MergeAllSpec(keep[1..], merge[1..]);
      assert forall i :: 1 <= i < |keep| ==> keep[i] == keep[1..][i - 1] && merge[i] == merge[1..][i - 1];
    }
  }

  function Dicts(ps: seq<Props>): (r: seq<Value>)
    ensures |r| == |ps| && forall i :: 0 <= i < |ps| ==> r[i] == Dict(ps[i])
  {
    seq(|ps|, i requires 0 <= i < |ps| => Dict(ps[i]))
  }

  /** What `merge_properties` leaves in the frame it was given, and what it returns or raises. */
  datatype MergeOutcome = MergeOutcome(frame: Table, result: Outcome<Table>)

  /**
   * `merge_properties`: evaluate the keep column in place; replace each of its
   * cells by the union of that dict and the merge column's dict, the merge
   * column's entries winning; return the frame without the merge column.
   * Each assignment to the frame happens before the next lookup can fail.
   */
  function MergedProperties(t: Table, keepCol: string, mergeCol: string, decode: Decoder): (r: MergeOutcome)
    requires WellFormed(t)
    ensures WellFormed(r.frame) && r.frame.columns == t.columns && |r.frame.rows| == |t.rows|
    ensures r.result.Ok? ==> WellFormed(r.result.value) && |r.result.value.rows| == |t.rows|
  {
    match ColumnIndex(t.columns, keepCol)
    case None => MergeOutcome(t, Err(MissingColumns({keepCol})))
    case Some(k) =>
      match DecodeAll(Column(t, k), decode)
      case None => MergeOutcome(t, Err(Undecodable))
      case Some(ps) =>
        var evaluated := SetColumn(t, k, Dicts(ps));
        match ColumnIndex(t.columns, mergeCol)
        case None => MergeOutcome(evaluated, Err(MissingColumns({mergeCol})))
        case Some(m) =>
          match MergeAll(Column(evaluated, k), Column(evaluated, m))
          case None => MergeOutcome(evaluated, Err(NotAMapping))
          case Some(vs) =>
            var merged := SetColumn(evaluated, k, vs);
            MergeOutcome(merged, Ok(Drop(merged, {mergeCol})))
  }

  /**
   * The merge succeeds exactly when both columns exist, every keep cell
   * evaluates, and every merge cell is a dict.
   */
  lemma MergedPropertiesSucceedsIff(t: Table, keepCol: string, mergeCol: string, decode: Decoder)
    requires WellFormed(t) && keepCol != mergeCol
    ensures MergedProperties(t, keepCol, mergeCol, decode).result.Ok? <==>
      && keepCol in t.columns && mergeCol in t.columns
      && (forall i :: 0 <= i < |t.rows| ==> DecodeCell(Get(t.columns, t.rows[i], keepCol).value, decode).Some?)
      && (forall i :: 0 <= i < |t.rows| ==> Get(t.columns, t.rows[i], mergeCol).value.Dict?)
  {
    if keepCol in t.columns && mergeCol in t.columns {
      var k := ColumnIndex(t.columns, keepCol).value;
      var m := ColumnIndex(t.columns, mergeCol).value;
      assert k != m;
      forall i | 0 <= i < |t.rows|
        ensures Get(t.columns, t.rows[i], keepCol) == Some(t.rows[i][k])
        ensures Get(t.columns, t.rows[i], mergeCol) == Some(t.rows[i][m])
      {
        GetAtIndex(t.columns, t.rows[i], keepCol);
        GetAtIndex(t.columns, t.rows[i], mergeCol);
      }
      DecodeAllSpec(Column(t, k), decode);
      var ps := DecodeAll(Column(t, k), decode);
      if ps.Some? {
        var evaluated := SetColumn(t, k, Dicts(ps.value));
        MergeAllSpec(Column(evaluated, k), Column(evaluated, m));
      }
    }
  }

  /**
   * On success, each row's properties cell is the evaluated dict updated by
   * the merge column's dict, every other column except the dropped merge
   * column keeps its cells, and the merge column is gone.
   */
  lemma MergedPropertiesCells(t: Table, keepCol: string, mergeCol: string, decode: Decoder)
    requires WellFormed(t) && keepCol != mergeCol
    requires MergedProperties(t, keepCol, mergeCol, decode).result.Ok?
    ensures keepCol in t.columns && mergeCol in t.columns
    ensures var r := MergedProperties(t, keepCol, mergeCol, decode).result.value;
      && r.columns == Select(t.columns, t.columns, {mergeCol}, false)
      && forall i :: 0 <= i < |t.rows| ==>
           && DecodeCell(Get(t.columns, t.rows[i], keepCol).value, decode).Some?
           && Get(t.columns, t.rows[i], mergeCol).value.Dict?
           && Get(r.columns, r.rows[i], keepCol) == Some(Dict(Merge(
                DecodeCell(Get(t.columns, t.rows[i], keepCol).value, decode).value,
                Get(t.columns, t.rows[i], mergeCol).value.entries)))
           && forall c :: c != keepCol && c != mergeCol ==> Get(r.columns, r.rows[i], c) == Get(t.columns, t.rows[i], c)
  {
    MergedPropertiesSucceedsIff(t, keepCol, mergeCol, decode);
    var k := ColumnIndex(t.columns, keepCol).value;
    var m := ColumnIndex(t.columns, mergeCol).value;
    DecodeAllSpec(Column(t, k), decode);
    var ps := DecodeAll(Column(t, k), decode).value;
    var evaluated := SetColumn(t, k, Dicts(ps));
    MergeAllSpec(Column(evaluated, k), Column(evaluated, m));
    var vs := MergeAll(Column(evaluated, k), Column(evaluated, m)).value;
    var merged := SetColumn(evaluated, k, vs);
    var r := Drop(merged, {mergeCol});
    assert r == MergedProperties(t, keepCol, mergeCol, decode).result.value;
    forall i | 0 <= i < |t.rows|
      ensures Get(r.columns, r.rows[i], keepCol) == Some(Dict(Merge(
                DecodeCell(Get(t.columns, t.rows[i], keepCol).value, decode).value,
                Get(t.columns, t.rows[i], mergeCol).value.entries)))
      ensures forall c :: c != keepCol && c != mergeCol ==> Get(r.columns, r.rows[i], c) == Get(t.columns, t.rows[i], c)
    {
      GetAtIndex(t.columns, t.rows[i], keepCol);
      GetAtIndex(t.columns, t.rows[i], mergeCol);
      SelectGet(merged.columns, merged.rows[i], {mergeCol}, false, keepCol);
      GetAtIndex(merged.columns, merged.rows[i], keepCol);
      forall c | c != keepCol && c != mergeCol
        ensures Get(r.columns, r.rows[i], c) == Get(t.columns, t.rows[i], c)
      {
        SelectGet(merged.columns, merged.rows[i], {mergeCol}, false, c);
        if c in t.columns {
          GetAtIndex(merged.columns, merged.rows[i], c);
          GetAtIndex(t.columns, t.rows[i], c);
        }
      }
    }
  }

  /** The `map(literal_eval)` loop over one column: stops at the first cell that does not evaluate. */
  method EvaluateColumn(cells: seq<Value>, decode: Decoder) returns (r: Option<seq<Props>>)
    ensures r == DecodeAll(cells, decode)
  {
    DecodeAllSpec(cells, decode);
    var decoded: seq<Props> := [];
    var i := 0;
    while i < |cells|
      invariant i <= |cells| && |decoded| == i
      invariant forall j :: 0 <= j < i ==> DecodeCell(cells[j], decode) == Some(decoded[j])
    {
      var p := DecodeCell(cells[i], decode);
      if p.None? {
        return None;
      }
      decoded := decoded + [p.value];
      i := i + 1;
    }
    assert DecodeAll(cells, decode).value == decoded;
    r := Some(decoded);
  }

  /** The `{**c1, **c2}` comprehension over two columns: stops at the first row whose cells are not both dicts. */
  method UnionColumns(keep: seq<Value>, merge: seq<Value>) returns (r: Option<seq<Value>>)
    requires |keep| == |merge|
    ensures r == MergeAll(keep, merge)
  {
    MergeAllSpec(keep, merge);
    var unions: seq<Value> := [];
    var i := 0;
    while i < |keep|
      invariant i <= |keep| && |unions| == i
      invariant forall j :: 0 <= j < i ==> keep[j].Dict? && merge[j].Dict?
      invariant forall j :: 0 <= j < i ==> unions[j] == Dict(Merge(keep[j].entries, merge[j].entries))
    {
      if !keep[i].Dict? || !merge[i].Dict? {
        return None;
      }
      unions := unions + [Dict(Merge(keep[i].entries, merge[i].entries))];
      i := i + 1;
    }
    assert MergeAll(keep, merge).value == unions;
    r := Some(unions);
  }

  /** A dataframe whose columns are reassigned in place. */
  class Frame {
    var columns: seq<string>
    var rows: seq<seq<Value>>

    function Contents(): Table
      reads this
    {
      Table(columns, rows)
    }

    constructor (t: Table)
      ensures Contents() == t
    {
      columns := t.columns;
      rows := t.rows;
    }

    /**
     * `merge_properties` on this frame: the frame is left as the two column
     * assignments that ran leave it, and the result is the returned frame or
     * the raised error.
     */
    method MergeProperties(keepCol: string, mergeCol: string, decode: Decoder) returns (r: Outcome<Table>)
      requires WellFormed(Contents())
      modifies this
      ensures MergeOutcome(Contents(), r) == MergedProperties(old(Contents()), keepCol, mergeCol, decode)
    {
      var k := ColumnIndex(columns, keepCol);
      if k.None? {
        return Err(MissingColumns({keepCol}));
      }
      var decoded := EvaluateColumn(Column(Contents(), k.value), decode);
      if decoded.None? {
        return Err(Undecodable);
      }
      rows := SetColumn(Contents(), k.value, Dicts(decoded.value)).rows;
      var m := ColumnIndex(columns, mergeCol);
      if m.None? {
        return Err(MissingColumns({mergeCol}));
      }
      var unions := UnionColumns(Column(Contents(), k.value), Column(Contents(), m.value));
      if unions.None? {
        return Err(NotAMapping);
      }
      rows := SetColumn(Contents(), k.value, unions.value).rows;
      r := Ok(Drop(Contents(), {mergeCol}));
    }
  }

  // ----- change_column_names and the composed conversions -----

  /** `df.rename(columns=renames)`: labels in the map are renamed, others kept; cells and row order untouched. */
  function ChangeColumnNames(t: Table, renames: map<string, string>): (r: Table)
    ensures r.rows == t.rows && |r.columns| == |t.columns|
    ensures forall j :: 0 <= j < |t.columns| ==>
      (t.columns[j] in renames ==> r.columns[j] == renames[t.columns[j]]) &&
      (t.columns[j] !in renames ==> r.columns[j] == t.columns[j])
  {
    Table(RenameAll(renames, t.columns), t.rows)
  }

  /**
   * When the new labels are distinct, every row reads under a column's new
   * label what it read under the old one.
   */
  lemma ChangeColumnNamesGet(t: Table, renames: map<string, string>, c: string)
    requires WellFormed(t) && c in t.columns
    requires Distinct(ChangeColumnNames(t, renames).columns)
    ensures var r := ChangeColumnNames(t, renames);
      forall i :: 0 <= i < |t.rows| ==> Get(r.columns, r.rows[i], Renamed(renames, c)) == Get(t.columns, t.rows[i], c)
  {
    forall i | 0 <= i < |t.rows|
      ensures Get(RenameAll(renames, t.columns), t.rows[i], Renamed(renames, c)) == Get(t.columns, t.rows[i], c)
    {
      RenameGet(renames, t.columns, t.rows[i], c);
    }
  }

  /**
   * `df_to_networkx_nodes` and `df_to_networkx_edges` (the same pipe): collapse
   * the non-kept columns, merge them into `properties`, rename.
   */
  function Conversion(t: Table, keep: KeepSpec, renames: map<string, string>, decode: Decoder): (r: Outcome<Table>)
    requires WellFormed(t)
    ensures r.Ok? ==> WellFormed(r.value) && |r.value.rows| == |t.rows|
  {
    match RowToDictionary(t, keep)
    case Err(e) => Err(e)
    case Ok(collapsed) =>
      match MergedProperties(collapsed, PropertiesColumn, TempDicts, decode).result
      case Err(e) => Err(e)
      case Ok(merged) => Ok(ChangeColumnNames(merged, renames))
  }

  /** The conversion as run: the merge step works on a frame of its own, updated in place. */
  method DfToNetworkx(t: Table, keep: KeepSpec, renames: map<string, string>, decode: Decoder) returns (r: Outcome<Table>)
    requires WellFormed(t)
    ensures r == Conversion(t, keep, renames, decode)
  {
    var collapsed := RowToDictionary(t, keep);
    if collapsed.Err? {
      return Err(collapsed.error);
    }
    var frame := new Frame(collapsed.value);
    var merged := frame.MergeProperties(PropertiesColumn, TempDicts, decode);
    if merged.Err? {
      return Err(merged.error);
    }
    r := Ok(ChangeColumnNames(merged.value, renames));
  }

  /** Every properties cell of a table evaluates. */
  ghost predicate PropertiesEvaluate(t: Table, decode: Decoder)
    requires WellFormed(t) && PropertiesColumn in t.columns
  {
    forall i :: 0 <= i < |t.rows| ==> DecodeCell(Get(t.columns, t.rows[i], PropertiesColumn).value, decode).Some?
  }

  /**
   * What the conversions need of their input: distinct labels, every kept
   * label present, `properties` kept, `temp_dicts` not kept, and distinct
   * labels after renaming.
   */
  ghost predicate Convertible(t: Table, keep: KeepSpec, renames: map<string, string>) {
    && WellFormed(t) && Distinct(t.columns)
    && !keep.KeepOther? && KeptNames(keep) <= Labels(t) && TempDicts !in KeptNames(keep)
    && PropertiesColumn in KeptNames(keep)
    && Distinct(RenameAll(renames, Select(t.columns, t.columns, KeptNames(keep), true)))
  }

  /** A convertible table converts exactly when every properties cell evaluates. */
  lemma ConversionSucceedsIff(t: Table, keep: KeepSpec, renames: map<string, string>, decode: Decoder)
    requires Convertible(t, keep, renames)
    ensures Conversion(t, keep, renames, decode).Ok? <==> PropertiesEvaluate(t, decode)
  {
    var collapsed := RowToDictionary(t, keep).value;
    RowToDictionarySpec(t, keep);
    MergedPropertiesSucceedsIff(collapsed, PropertiesColumn, TempDicts, decode);
  }

  /** The collapsed and merged table, before renaming, has exactly the kept columns in their order. */
  lemma MergedColumns(t: Table, keep: KeepSpec, decode: Decoder)
    requires WellFormed(t) && Distinct(t.columns) && RowToDictionary(t, keep).Ok?
    requires MergedProperties(RowToDictionary(t, keep).value, PropertiesColumn, TempDicts, decode).result.Ok?
    ensures MergedProperties(RowToDictionary(t, keep).value, PropertiesColumn, TempDicts, decode).result.value.columns
      == Select(t.columns, t.columns, KeptNames(keep), true)
  {
    var collapsed := RowToDictionary(t, keep).value;
    RowToDictionarySpec(t, keep);
    MergedPropertiesCells(collapsed, PropertiesColumn, TempDicts, decode);
    var s := Select(t.columns, t.columns, KeptNames(keep), true);
    SelectLabels(t.columns, KeptNames(keep), true);
    SelectDropsLast(s, s, TempDicts, TempDicts);
  }

  /** A successful conversion keeps exactly the kept columns, renamed, in their order. */
  lemma ConversionColumns(t: Table, keep: KeepSpec, renames: map<string, string>, decode: Decoder)
    requires Convertible(t, keep, renames) && Conversion(t, keep, renames, decode).Ok?
    ensures Conversion(t, keep, renames, decode).value.columns
      == RenameAll(renames, Select(t.columns, t.columns, KeptNames(keep), true))
  {
    MergedColumns(t, keep, decode);
  }

  /**
   * In a successful conversion, each row keeps its kept cells under their new
   * labels, and its properties become its evaluated dict updated by the dict
   * of its non-kept columns.
   */
  lemma ConversionRow(t: Table, keep: KeepSpec, renames: map<string, string>, decode: Decoder, i: nat)
    requires Convertible(t, keep, renames) && Conversion(t, keep, renames, decode).Ok? && i < |t.rows|
    ensures PropertiesEvaluate(t, decode)
    ensures var r := Conversion(t, keep, renames, decode).value;
      && (forall c :: c in KeptNames(keep) && c != PropertiesColumn ==>
            Get(r.columns, r.rows[i], Renamed(renames, c)) == Get(t.columns, t.rows[i], c))
      && Get(r.columns, r.rows[i], Renamed(renames, PropertiesColumn)) ==
           Some(Dict(Merge(
             DecodeCell(Get(t.columns, t.rows[i], PropertiesColumn).value, decode).value,
             TempDict(t.columns, t.rows[i], KeptNames(keep)))))
  {
    ConversionSucceedsIff(t, keep, renames, decode);
    var kept := KeptNames(keep);
    var collapsed := RowToDictionary(t, keep).value;
    RowToDictionarySpec(t, keep);
    var merged := MergedProperties(collapsed, PropertiesColumn, TempDicts, decode).result.value;
    MergedPropertiesCells(collapsed, PropertiesColumn, TempDicts, decode);
    MergedColumns(t, keep, decode);
    SelectLabels(t.columns, kept, true);
    var r := ChangeColumnNames(merged, renames);
    assert r == Conversion(t, keep, renames, decode).value;
    forall c | c in kept
      ensures Get(r.columns, r.rows[i], Renamed(renames, c)) == Get(merged.columns, merged.rows[i], c)
    {
      ChangeColumnNamesGet(merged, renames, c);
    }
  }

  // ----- the pipeline's column configuration -----

  const NodeKeep: KeepSpec := KeepList(["UniProt ID", "properties"])
  const NodeRenames: map<string, string> := map["UniProt ID" := "source", "properties" := "properties"]
  const EdgeKeep: KeepSpec := KeepList(["Source ID", "Target ID", "properties"])
  const EdgeRenames: map<string, string> :=
    map["Source ID" := "source", "Target ID" := "target", "properties" := "properties"]

  /**
   * The node configuration applies to any table with distinct labels
   * that has the node kept columns.
   */
  lemma NodeKeepConvertible(t: Table)
    requires WellFormed(t) && Distinct(t.columns)
    requires "UniProt ID" in t.columns && PropertiesColumn in t.columns
    ensures KeptNames(NodeKeep) == {"UniProt ID", PropertiesColumn}
    ensures Convertible(t, NodeKeep, NodeRenames)
  {
    var kept := KeptNames(NodeKeep);
    assert kept == {"UniProt ID", PropertiesColumn};
    var s := Select(t.columns, t.columns, kept, true);
    SelectLabels(t.columns, kept, true);
    SelectDistinct(t.columns, kept, true);
    RenameDistinct(NodeRenames, s);
  }

  /** After renaming, the kept node columns are exactly SourceColumn, PropertiesColumn. */
  lemma NodeRenamedLabels(t: Table)
    requires "UniProt ID" in t.columns && PropertiesColumn in t.columns
    ensures forall c :: c in RenameAll(NodeRenames, Select(t.columns, t.columns, {"UniProt ID", PropertiesColumn}, true)) <==>
      c == SourceColumn || c == PropertiesColumn
  {
    var kept := {"UniProt ID", PropertiesColumn};
    var s := Select(t.columns, t.columns, kept, true);
    SelectLabels(t.columns, kept, true);
    RenameAllHas(NodeRenames, s, "UniProt ID");
    RenameAllHas(NodeRenames, s, PropertiesColumn);
    NodeRenamed("UniProt ID");
    NodeRenamed(PropertiesColumn);
    forall i | 0 <= i < |s|
      ensures Renamed(NodeRenames, s[i]) in {SourceColumn, PropertiesColumn}
    {
      assert s[i] in kept;
      NodeRenamed(s[i]);
    }
    RenameAllInto(NodeRenames, s, {SourceColumn, PropertiesColumn});
  }

  /** What the node rename map does to one label. */
  lemma NodeRenamed(a: string)
    ensures Renamed(NodeRenames, a) == if a == "UniProt ID" then SourceColumn else a
  {
  }

  /**
   * The node conversion as the pipeline configures it: it fails exactly when
   * a properties cell does not evaluate, and otherwise yields exactly the
   * columns `source` and `properties`, `source` holding each row's UniProt
   * ID and `properties` its evaluated dict updated by its other columns.
   */
  lemma NodeConfiguration(t: Table, decode: Decoder)
    requires WellFormed(t) && Distinct(t.columns)
    requires "UniProt ID" in t.columns && PropertiesColumn in t.columns
    ensures var r := Conversion(t, NodeKeep, NodeRenames, decode);
      && (r.Ok? <==> PropertiesEvaluate(t, decode))
      && (r.Ok? ==>
            && Distinct(r.value.columns)
            && (forall c :: c in r.value.columns <==> c == SourceColumn || c == PropertiesColumn)
            && forall i :: 0 <= i < |t.rows| ==>
                 && Get(r.value.columns, r.value.rows[i], SourceColumn) == Get(t.columns, t.rows[i], "UniProt ID")
                 && Get(r.value.columns, r.value.rows[i], PropertiesColumn) ==
                      Some(Dict(Merge(
                        DecodeCell(Get(t.columns, t.rows[i], PropertiesColumn).value, decode).value,
                        TempDict(t.columns, t.rows[i], {"UniProt ID", PropertiesColumn})))))
  {
    NodeKeepConvertible(t);
    NodeRenamedLabels(t);
    ConversionSucceedsIff(t, NodeKeep, NodeRenames, decode);
    var r := Conversion(t, NodeKeep, NodeRenames, decode);
    if r.Ok? {
      ConversionColumns(t, NodeKeep, NodeRenames, decode);
      assert Renamed(NodeRenames, "UniProt ID") == SourceColumn;
      assert Renamed(NodeRenames, PropertiesColumn) == PropertiesColumn;
      forall i | 0 <= i < |t.rows|
        ensures Get(r.value.columns, r.value.rows[i], SourceColumn) == Get(t.columns, t.rows[i], "UniProt ID")
        ensures Get(r.value.columns, r.value.rows[i], PropertiesColumn) ==
          Some(Dict(Merge(
            DecodeCell(Get(t.columns, t.rows[i], PropertiesColumn).value, decode).value,
            TempDict(t.columns, t.rows[i], {"UniProt ID", PropertiesColumn}))))
      {
        ConversionRow(t, NodeKeep, NodeRenames, decode, i);
      }
    }
  }

  /**
   * The edge configuration applies to any table with distinct labels
   * that has the edge kept columns.
   */
  lemma EdgeKeepConvertible(t: Table)
    requires WellFormed(t) && Distinct(t.columns)
    requires "Source ID" in t.columns && "Target ID" in t.columns && PropertiesColumn in t.columns
    ensures KeptNames(EdgeKeep) == {"Source ID", "Target ID", PropertiesColumn}
    ensures Convertible(t, EdgeKeep, EdgeRenames)
  {
    var kept := KeptNames(EdgeKeep);
    assert kept == {"Source ID", "Target ID", PropertiesColumn};
    var s := Select(t.columns, t.columns, kept, true);
    SelectLabels(t.columns, kept, true);
    SelectDistinct(t.columns, kept, true);
    RenameDistinct(EdgeRenames, s);
  }

  /** After renaming, the kept edge columns are exactly SourceColumn, TargetColumn, PropertiesColumn. */
  lemma EdgeRenamedLabels(t: Table)
    requires "Source ID" in t.columns && "Target ID" in t.columns && PropertiesColumn in t.columns
    ensures forall c :: c in RenameAll(EdgeRenames, Select(t.columns, t.columns, {"Source ID", "Target ID", PropertiesColumn}, true)) <==>
      c == SourceColumn || c == TargetColumn || c == PropertiesColumn
  {
    var kept := {"Source ID", "Target ID", PropertiesColumn};
    var s := Select(t.columns, t.columns, kept, true);
    SelectLabels(t.columns, kept, true);
    RenameAllHas(EdgeRenames, s, "Source ID");
    RenameAllHas(EdgeRenames, s, "Target ID");
    RenameAllHas(EdgeRenames, s, PropertiesColumn);
    EdgeRenamed("Source ID");
    EdgeRenamed("Target ID");
    EdgeRenamed(PropertiesColumn);
    forall i | 0 <= i < |s|
      ensures Renamed(EdgeRenames, s[i]) in {SourceColumn, TargetColumn, PropertiesColumn}
    {
      assert s[i] in kept;
      EdgeLabelImage(s[i]);
    }
    RenameAllInto(EdgeRenames, s, {SourceColumn, TargetColumn, PropertiesColumn});
  }

  /** A kept edge label is renamed to one of the three graph columns. */
  lemma EdgeLabelImage(a: string)
    requires a in {"Source ID", "Target ID", PropertiesColumn}
    ensures var c := Renamed(EdgeRenames, a); c == SourceColumn || c == TargetColumn || c == PropertiesColumn
  {
    EdgeRenamed(a);
  }

  /** What the edge rename map does to one label. */
  lemma EdgeRenamed(a: string)
    ensures Renamed(EdgeRenames, a) ==
      if a == "Source ID" then SourceColumn else if a == "Target ID" then TargetColumn else a
  {
  }

  /**
   * The edge conversion as the pipeline configures it: as for nodes, with
   * `Source ID` and `Target ID` becoming `source` and `target`.
   */
  lemma EdgeConfiguration(t: Table, decode: Decoder)
    requires WellFormed(t) && Distinct(t.columns)
    requires "Source ID" in t.columns && "Target ID" in t.columns && PropertiesColumn in t.columns
    ensures var r := Conversion(t, EdgeKeep, EdgeRenames, decode);
      && (r.Ok? <==> PropertiesEvaluate(t, decode))
      && (r.Ok? ==>
            && Distinct(r.value.columns)
            && (forall c :: c in r.value.columns <==> c == SourceColumn || c == TargetColumn || c == PropertiesColumn)
            && forall i :: 0 <= i < |t.rows| ==>
                 && Get(r.value.columns, r.value.rows[i], SourceColumn) == Get(t.columns, t.rows[i], "Source ID")
                 && Get(r.value.columns, r.value.rows[i], TargetColumn) == Get(t.columns, t.rows[i], "Target ID")
                 && Get(r.value.columns, r.value.rows[i], PropertiesColumn) ==
                      Some(Dict(Merge(
                        DecodeCell(Get(t.columns, t.rows[i], PropertiesColumn).value, decode).value,
                        TempDict(t.columns, t.rows[i], {"Source ID", "Target ID", PropertiesColumn})))))
  {
    EdgeKeepConvertible(t);
    EdgeRenamedLabels(t);
    ConversionSucceedsIff(t, EdgeKeep, EdgeRenames, decode);
    var r := Conversion(t, EdgeKeep, EdgeRenames, decode);
    if r.Ok? {
      ConversionColumns(t, EdgeKeep, EdgeRenames, decode);
      assert Renamed(EdgeRenames, "Source ID") == SourceColumn;
      assert Renamed(EdgeRenames, "Target ID") == TargetColumn;
      assert Renamed(EdgeRenames, PropertiesColumn) == PropertiesColumn;
      forall i | 0 <= i < |t.rows|
        ensures Get(r.value.columns, r.value.rows[i], SourceColumn) == Get(t.columns, t.rows[i], "Source ID")
        ensures Get(r.value.columns, r.value.rows[i], TargetColumn) == Get(t.columns, t.rows[i], "Target ID")
        ensures Get(r.value.columns, r.value.rows[i], PropertiesColumn) ==
          Some(Dict(Merge(
            DecodeCell(Get(t.columns, t.rows[i], PropertiesColumn).value, decode).value,
            TempDict(t.columns, t.rows[i], {"Source ID", "Target ID", PropertiesColumn}))))
      {
        ConversionRow(t, EdgeKeep, EdgeRenames, decode, i);
      }
    }
  }

  // ----- networkx_graph_from_pandas and the pipeline -----

  /** One `(source, target, properties)` tuple of the edge table: the properties cell must be a dict. */
  function EdgeTuple(si: nat, ti: nat, pi: nat): seq<Value> -> Outcome<Edge<Value>> {
    (row: seq<Value>) => if si < |row| && ti < |row| && pi < |row| && row[pi].Dict? then Ok(Edge(row[si], row[ti], row[pi].entries))
           else Err(NotAMapping)
  }

  /** One `(source, properties)` tuple of the node table: the properties cell must be a dict. */
  function NodeTuple(si: nat, pi: nat): seq<Value> -> Outcome<Node<Value>> {
    (row: seq<Value>) => if si < |row| && pi < |row| && row[pi].Dict? then Ok(Node(row[si], row[pi].entries))
           else Err(NotAMapping)
  }

  /**
   * The edge tuples handed to the edge insertion: selecting `source` and
   * `target`, then `properties`, fails before any tuple if a label is
   * missing; then one tuple per row, in row order.
   */
  function EdgeTuples(t: Table): Stream<Edge<Value>> {
    if SourceColumn !in t.columns || TargetColumn !in t.columns then
      Stream([], Some(MissingColumns({SourceColumn, TargetColumn} - Labels(t))))
    else if PropertiesColumn !in t.columns then Stream([], Some(MissingColumns({PropertiesColumn})))
    else
      MapRows(t.rows, EdgeTuple(
        ColumnIndex(t.columns, SourceColumn).value,
        ColumnIndex(t.columns, TargetColumn).value,
        ColumnIndex(t.columns, PropertiesColumn).value))
  }

  /** The node tuples handed to the node insertion, likewise from `source` and `properties`. */
  function NodeTuples(t: Table): Stream<Node<Value>> {
    if SourceColumn !in t.columns then Stream([], Some(MissingColumns({SourceColumn})))
    else if PropertiesColumn !in t.columns then Stream([], Some(MissingColumns({PropertiesColumn})))
    else
      MapRows(t.rows, NodeTuple(
        ColumnIndex(t.columns, SourceColumn).value,
        ColumnIndex(t.columns, PropertiesColumn).value))
  }

  /**
   * From a table with `source`, `target` and `properties`: tuple `i` holds
   * row `i`'s source, target and properties dict; every row yields one
   * exactly when every properties cell is a dict, and otherwise the first
   * row whose cell is not one raises.
   */
  lemma EdgeTuplesSpec(t: Table)
    requires WellFormed(t)
    requires SourceColumn in t.columns && TargetColumn in t.columns && PropertiesColumn in t.columns
    ensures var s := EdgeTuples(t);
      && (s.stop.None? <==> forall i :: 0 <= i < |t.rows| ==> Get(t.columns, t.rows[i], PropertiesColumn).value.Dict?)
      && (s.stop.None? ==> |s.items| == |t.rows|)
      && (s.stop.Some? ==> s.stop == Some(NotAMapping))
      && (s.stop.Some? ==> |s.items| < |t.rows| && !Get(t.columns, t.rows[|s.items|], PropertiesColumn).value.Dict?)
      && forall i :: 0 <= i < |s.items| ==>
           && Get(t.columns, t.rows[i], PropertiesColumn).value.Dict?
           && s.items[i] == Edge(
             Get(t.columns, t.rows[i], SourceColumn).value,
             Get(t.columns, t.rows[i], TargetColumn).value,
             Get(t.columns, t.rows[i], PropertiesColumn).value.entries)
  {
    var f := EdgeTuple(
      ColumnIndex(t.columns, SourceColumn).value,
      ColumnIndex(t.columns, TargetColumn).value,
      ColumnIndex(t.columns, PropertiesColumn).value);
    assert EdgeTuples(t) == MapRows(t.rows, f);
    MapRowsExact(t.rows, f);
    MapRowsCleanIffAllConvert(t.rows, f);
    forall i | 0 <= i < |t.rows|
      ensures Get(t.columns, t.rows[i], SourceColumn) == Some(t.rows[i][ColumnIndex(t.columns, SourceColumn).value])
      ensures Get(t.columns, t.rows[i], TargetColumn) == Some(t.rows[i][ColumnIndex(t.columns, TargetColumn).value])
      ensures Get(t.columns, t.rows[i], PropertiesColumn) == Some(t.rows[i][ColumnIndex(t.columns, PropertiesColumn).value])
    {
      GetAtIndex(t.columns, t.rows[i], SourceColumn);
      GetAtIndex(t.columns, t.rows[i], TargetColumn);
      GetAtIndex(t.columns, t.rows[i], PropertiesColumn);
    }
  }

  /** The node counterpart of EdgeTuplesSpec, over `source` and `properties`. */
  lemma NodeTuplesSpec(t: Table)
    requires WellFormed(t)
    requires SourceColumn in t.columns && PropertiesColumn in t.columns
    ensures var s := NodeTuples(t);
      && (s.stop.None? <==> forall i :: 0 <= i < |t.rows| ==> Get(t.columns, t.rows[i], PropertiesColumn).value.Dict?)
      && (s.stop.None? ==> |s.items| == |t.rows|)
      && (s.stop.Some? ==> s.stop == Some(NotAMapping))
      && (s.stop.Some? ==> |s.items| < |t.rows| && !Get(t.columns, t.rows[|s.items|], PropertiesColumn).value.Dict?)
      && forall i :: 0 <= i < |s.items| ==>
           && Get(t.columns, t.rows[i], PropertiesColumn).value.Dict?
           && s.items[i] == Node(
             Get(t.columns, t.rows[i], SourceColumn).value,
             Get(t.columns, t.rows[i], PropertiesColumn).value.entries)
  {
    var f := NodeTuple(
      ColumnIndex(t.columns, SourceColumn).value,
      ColumnIndex(t.columns, PropertiesColumn).value);
    assert NodeTuples(t) == MapRows(t.rows, f);
    MapRowsExact(t.rows, f);
    MapRowsCleanIffAllConvert(t.rows, f);
    forall i | 0 <= i < |t.rows|
      ensures Get(t.columns, t.rows[i], SourceColumn) == Some(t.rows[i][ColumnIndex(t.columns, SourceColumn).value])
      ensures Get(t.columns, t.rows[i], PropertiesColumn) == Some(t.rows[i][ColumnIndex(t.columns, PropertiesColumn).value])
    {
      GetAtIndex(t.columns, t.rows[i], SourceColumn);
      GetAtIndex(t.columns, t.rows[i], PropertiesColumn);
    }
  }

  /** `networkx_graph_from_pandas`: every edge tuple is inserted, then every node tuple. */
  method NetworkxGraphFromPandas(g: DiGraph<Value>, nodes: Table, edges: Table) returns (err: Option<Error>)
    requires g.Valid()
    modifies g
    ensures g.Valid()
    ensures Assembly(g.State(), err) == Assemble(old(g.State()), EdgeTuples(edges), NodeTuples(nodes))
  {
    err := g.AddEdgesFrom(EdgeTuples(edges));
    if err.None? {
      err := g.AddNodesFrom(NodeTuples(nodes));
    }
  }

  /**
   * The dataframe pipeline from the two loaded tables: convert the node
   * table, then the edge table, then assemble a fresh graph from them.
   */
  function PandasPipeline(nodes: Table, edges: Table, decode: Decoder): (r: Assembly<Value>)
    requires WellFormed(nodes) && WellFormed(edges)
    ensures Conversion(nodes, NodeKeep, NodeRenames, decode).Err? ==>
      r == Assembly(Empty(), Some(Conversion(nodes, NodeKeep, NodeRenames, decode).error))
  {
    match Conversion(nodes, NodeKeep, NodeRenames, decode)
    case Err(e) => Assembly(Empty(), Some(e))
    case Ok(nodesDf) =>
      match Conversion(edges, EdgeKeep, EdgeRenames, decode)
      case Err(e) => Assembly(Empty(), Some(e))
      case Ok(edgesDf) => Assemble(Empty(), EdgeTuples(edgesDf), NodeTuples(nodesDf))
  }

  /**
   * `pipeline` after loading: both conversions run before the graph is
   * created; a failed conversion leaves only an empty graph and the error.
   */
  method Pipeline(nodes: Table, edges: Table, decode: Decoder) returns (g: DiGraph<Value>, err: Option<Error>)
    requires WellFormed(nodes) && WellFormed(edges)
    ensures fresh(g) && g.Valid()
    ensures Assembly(g.State(), err) == PandasPipeline(nodes, edges, decode)
  {
    var nodesDf := DfToNetworkx(nodes, NodeKeep, NodeRenames, decode);
    if nodesDf.Err? {
      g := new DiGraph();
      return g, Some(nodesDf.error);
    }
    var edgesDf := DfToNetworkx(edges, EdgeKeep, EdgeRenames, decode);
    if edgesDf.Err? {
      g := new DiGraph();
      return g, Some(edgesDf.error);
    }
    g := new DiGraph();
    err := NetworkxGraphFromPandas(g, nodesDf.value, edgesDf.value);
  }

  /** The node and edge tables the pipeline reads: distinct labels, including its kept columns. */
  ghost predicate PipelineTables(nodes: Table, edges: Table) {
    && WellFormed(nodes) && Distinct(nodes.columns)
    && "UniProt ID" in nodes.columns && PropertiesColumn in nodes.columns
    && WellFormed(edges) && Distinct(edges.columns)
    && "Source ID" in edges.columns && "Target ID" in edges.columns && PropertiesColumn in edges.columns
  }

  /** The node tuples of a converted node table: one per row, carrying the row's UniProt ID. */
  lemma ConvertedNodeTuples(nodes: Table, decode: Decoder)
    requires WellFormed(nodes) && Distinct(nodes.columns)
    requires "UniProt ID" in nodes.columns && PropertiesColumn in nodes.columns
    requires Conversion(nodes, NodeKeep, NodeRenames, decode).Ok?
    ensures var s := NodeTuples(Conversion(nodes, NodeKeep, NodeRenames, decode).value);
      && s.stop.None? && |s.items| == |nodes.rows|
      && forall i :: 0 <= i < |nodes.rows| ==> s.items[i].id == Get(nodes.columns, nodes.rows[i], "UniProt ID").value
  {
    var r := Conversion(nodes, NodeKeep, NodeRenames, decode).value;
    ConvertedNodeColumns(nodes, decode);
    forall i | 0 <= i < |nodes.rows|
      ensures Get(r.columns, r.rows[i], SourceColumn) == Get(nodes.columns, nodes.rows[i], "UniProt ID")
      ensures Get(r.columns, r.rows[i], PropertiesColumn).value.Dict?
    {
      ConvertedNodeRow(nodes, decode, i);
    }
    RenamedNodeTuples(r, nodes);
  }

  /** The node tuples of a renamed table whose ids and dicts come from the rows of `nodes`. */
  lemma RenamedNodeTuples(r: Table, nodes: Table)
    requires WellFormed(r) && WellFormed(nodes) && |r.rows| == |nodes.rows|
    requires SourceColumn in r.columns && PropertiesColumn in r.columns
    requires "UniProt ID" in nodes.columns
    requires forall i :: 0 <= i < |nodes.rows| ==>
      && Get(r.columns, r.rows[i], SourceColumn) == Get(nodes.columns, nodes.rows[i], "UniProt ID")
      && Get(r.columns, r.rows[i], PropertiesColumn).value.Dict?
    ensures var s := NodeTuples(r);
      && s.stop.None? && |s.items| == |nodes.rows|
      && forall i :: 0 <= i < |nodes.rows| ==> s.items[i].id == Get(nodes.columns, nodes.rows[i], "UniProt ID").value
  {
    NodeTuplesSpec(r);
  }

  /** A converted node table has the `source` and `properties` columns. */
  lemma ConvertedNodeColumns(nodes: Table, decode: Decoder)
    requires WellFormed(nodes) && Distinct(nodes.columns)
    requires "UniProt ID" in nodes.columns && PropertiesColumn in nodes.columns
    requires Conversion(nodes, NodeKeep, NodeRenames, decode).Ok?
    ensures var r := Conversion(nodes, NodeKeep, NodeRenames, decode).value;
      SourceColumn in r.columns && PropertiesColumn in r.columns
  {
    NodeKeepConvertible(nodes);
    NodeRenamedLabels(nodes);
    ConversionColumns(nodes, NodeKeep, NodeRenames, decode);
  }

  /** Row `i` of a converted node table: its source is the UniProt ID, its properties a dict. */
  lemma ConvertedNodeRow(nodes: Table, decode: Decoder, i: nat)
    requires WellFormed(nodes) && Distinct(nodes.columns)
    requires "UniProt ID" in nodes.columns && PropertiesColumn in nodes.columns
    requires Conversion(nodes, NodeKeep, NodeRenames, decode).Ok? && i < |nodes.rows|
    ensures var r := Conversion(nodes, NodeKeep, NodeRenames, decode).value;
      && Get(r.columns, r.rows[i], SourceColumn) == Get(nodes.columns, nodes.rows[i], "UniProt ID")
      && Get(r.columns, r.rows[i], PropertiesColumn).Some?
      && Get(r.columns, r.rows[i], PropertiesColumn).value.Dict?
  {
    NodeKeepConvertible(nodes);
    NodeRenamed("UniProt ID");
    NodeRenamed(PropertiesColumn);
    ConversionRow(nodes, NodeKeep, NodeRenames, decode, i);
  }

  /** The edge tuples of a converted edge table: one per row, carrying the row's Source ID and Target ID. */
  lemma ConvertedEdgeTuples(edges: Table, decode: Decoder)
    requires WellFormed(edges) && Distinct(edges.columns)
    requires "Source ID" in edges.columns && "Target ID" in edges.columns && PropertiesColumn in edges.columns
    requires Conversion(edges, EdgeKeep, EdgeRenames, decode).Ok?
    ensures var s := EdgeTuples(Conversion(edges, EdgeKeep, EdgeRenames, decode).value);
      && s.stop.None? && |s.items| == |edges.rows|
      && forall i :: 0 <= i < |edges.rows| ==>
           && s.items[i].source == Get(edges.columns, edges.rows[i], "Source ID").value
           && s.items[i].target == Get(edges.columns, edges.rows[i], "Target ID").value
  {
    var r := Conversion(edges, EdgeKeep, EdgeRenames, decode).value;
    ConvertedEdgeColumns(edges, decode);
    forall i | 0 <= i < |edges.rows|
      ensures Get(r.columns, r.rows[i], SourceColumn) == Get(edges.columns, edges.rows[i], "Source ID")
      ensures Get(r.columns, r.rows[i], TargetColumn) == Get(edges.columns, edges.rows[i], "Target ID")
      ensures Get(r.columns, r.rows[i], PropertiesColumn).value.Dict?
    {
      ConvertedEdgeRow(edges, decode, i);
    }
    RenamedEdgeTuples(r, edges);
  }

  /** The edge tuples of a renamed table whose ids and dicts come from the rows of `edges`. */
  lemma RenamedEdgeTuples(r: Table, edges: Table)
    requires WellFormed(r) && WellFormed(edges) && |r.rows| == |edges.rows|
    requires SourceColumn in r.columns && TargetColumn in r.columns && PropertiesColumn in r.columns
    requires "Source ID" in edges.columns && "Target ID" in edges.columns
    requires forall i :: 0 <= i < |edges.rows| ==>
      && Get(r.columns, r.rows[i], SourceColumn) == Get(edges.columns, edges.rows[i], "Source ID")
      && Get(r.columns, r.rows[i], TargetColumn) == Get(edges.columns, edges.rows[i], "Target ID")
      && Get(r.columns, r.rows[i], PropertiesColumn).value.Dict?
    ensures var s := EdgeTuples(r);
      && s.stop.None? && |s.items| == |edges.rows|
      && forall i :: 0 <= i < |edges.rows| ==>
           && s.items[i].source == Get(edges.columns, edges.rows[i], "Source ID").value
           && s.items[i].target == Get(edges.columns, edges.rows[i], "Target ID").value
  {
    EdgeTuplesSpec(r);
  }

  /** A converted edge table has the `source`, `target` and `properties` columns. */
  lemma ConvertedEdgeColumns(edges: Table, decode: Decoder)
    requires WellFormed(edges) && Distinct(edges.columns)
    requires "Source ID" in edges.columns && "Target ID" in edges.columns && PropertiesColumn in edges.columns
    requires Conversion(edges, EdgeKeep, EdgeRenames, decode).Ok?
    ensures var r := Conversion(edges, EdgeKeep, EdgeRenames, decode).value;
      SourceColumn in r.columns && TargetColumn in r.columns && PropertiesColumn in r.columns
  {
    EdgeKeepConvertible(edges);
    EdgeRenamedLabels(edges);
    ConversionColumns(edges, EdgeKeep, EdgeRenames, decode);
  }

  /** Row `i` of a converted edge table: source and target are its IDs, its properties a dict. */
  lemma ConvertedEdgeRow(edges: Table, decode: Decoder, i: nat)
    requires WellFormed(edges) && Distinct(edges.columns)
    requires "Source ID" in edges.columns && "Target ID" in edges.columns && PropertiesColumn in edges.columns
    requires Conversion(edges, EdgeKeep, EdgeRenames, decode).Ok? && i < |edges.rows|
    ensures var r := Conversion(edges, EdgeKeep, EdgeRenames, decode).value;
      && Get(r.columns, r.rows[i], SourceColumn) == Get(edges.columns, edges.rows[i], "Source ID")
      && Get(r.columns, r.rows[i], TargetColumn) == Get(edges.columns, edges.rows[i], "Target ID")
      && Get(r.columns, r.rows[i], PropertiesColumn).Some?
      && Get(r.columns, r.rows[i], PropertiesColumn).value.Dict?
  {
    EdgeKeepConvertible(edges);
    EdgeRenamed("Source ID");
    EdgeRenamed("Target ID");
    EdgeRenamed(PropertiesColumn);
    ConversionRow(edges, EdgeKeep, EdgeRenames, decode, i);
  }

  /**
   * All or nothing: on tables with the configured columns the pipeline ends
   * without an error exactly when every properties cell of both tables
   * evaluates.
   */
  lemma PandasPipelineSucceedsIff(nodes: Table, edges: Table, decode: Decoder)
    requires PipelineTables(nodes, edges)
    ensures PandasPipeline(nodes, edges, decode).error.None? <==>
      PropertiesEvaluate(nodes, decode) && PropertiesEvaluate(edges, decode)
  {
    NodeConfiguration(nodes, decode);
    EdgeConfiguration(edges, decode);
    var n := Conversion(nodes, NodeKeep, NodeRenames, decode);
    var e := Conversion(edges, EdgeKeep, EdgeRenames, decode);
    if n.Ok? && e.Ok? {
      ConvertedNodeTuples(nodes, decode);
      ConvertedEdgeTuples(edges, decode);
    }
  }

  /**
   * Every edge row of a successful run is an edge of the graph, from its
   * `Source ID` to its `Target ID`, and every node row's UniProt ID is a node.
   */
  lemma PandasPipelineRowsInGraph(nodes: Table, edges: Table, decode: Decoder)
    requires PipelineTables(nodes, edges)
    requires PandasPipeline(nodes, edges, decode).error.None?
    ensures var g := PandasPipeline(nodes, edges, decode).graph;
      && (forall i :: 0 <= i < |edges.rows| ==>
            (Get(edges.columns, edges.rows[i], "Source ID").value, Get(edges.columns, edges.rows[i], "Target ID").value) in g.edge)
      && (forall i :: 0 <= i < |nodes.rows| ==> Get(nodes.columns, nodes.rows[i], "UniProt ID").value in g.node)
  {
    NodeConfiguration(nodes, decode);
    EdgeConfiguration(edges, decode);
    ConvertedNodeTuples(nodes, decode);
    ConvertedEdgeTuples(edges, decode);
    var es := EdgeTuples(Conversion(edges, EdgeKeep, EdgeRenames, decode).value).items;
    var ns := NodeTuples(Conversion(nodes, NodeKeep, NodeRenames, decode).value).items;
    assert PandasPipeline(nodes, edges, decode).graph == AddNodes(AddEdges(Empty(), es), ns);
    AssembledEdges(es, ns);
    EdgesBeforeNodes(es, ns);
    forall i | 0 <= i < |edges.rows|
      ensures (es[i].source, es[i].target) in Pairs(es)
    {
      PairIsMentioned(es, i);
    }
    forall i | 0 <= i < |nodes.rows|
      ensures ns[i].id in Ids(ns)
    {
      IdIsMentioned(ns, i);
    }
  }
}
