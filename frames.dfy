/**
 * A dataframe as the dataframe builder uses it: column labels and rows of
 * cells under the default positional index, with the label-based operations
 * it relies on (select by label, look up by label, drop, rename, replace a
 * column, and building a dict from labels and cells).
 */
module Frames {
  import opened Wrappers
  import opened Literals

  datatype Table = Table(columns: seq<string>, rows: seq<seq<Value>>)

  /** Every row has one cell per column. */
  ghost predicate WellFormed(t: Table) {
    forall i :: 0 <= i < |t.rows| ==> |t.rows[i]| == |t.columns|
  }

  /** No label occurs twice. */
  ghost predicate Distinct<T>(s: seq<T>) {
    forall i, j :: 0 <= i < j < |s| ==> s[i] != s[j]
  }

  /**
   * The entries of `xs` (one per column of `cols`) whose column label is in
   * `names` when `inside`, or is not in `names` otherwise; in column order.
   */
  function Select<T>(cols: seq<string>, xs: seq<T>, names: set<string>, inside: bool): (r: seq<T>)
    requires |cols| == |xs|
    ensures |r| <= |xs|
  {
    if cols == [] then []
    else (if (cols[0] in names) == inside then [xs[0]] else []) + Select(cols[1..], xs[1..], names, inside)
  }

  /** Selecting from a row keeps exactly as many cells as selecting from the labels keeps labels. */
  lemma {:induction false} SelectWidth<T>(cols: seq<string>, xs: seq<T>, names: set<string>, inside: bool)
    requires |cols| == |xs|
    ensures |Select(cols, xs, names, inside)| == |Select(cols, cols, names, inside)|
  {
    if cols != [] {
      SelectWidth(cols[1..], xs[1..], names, inside);
    }
  }

  /** A label survives selection exactly when it is a column on the selected side. */
  lemma {:induction false} SelectLabels(cols: seq<string>, names: set<string>, inside: bool)
    ensures forall c :: c in Select(cols, cols, names, inside) <==> c in cols && (c in names) == inside
  {
    if cols != [] {
      SelectLabels(cols[1..], names, inside);
    }
  }

  /** Selection keeps labels distinct. */
  lemma {:induction false} SelectDistinct(cols: seq<string>, names: set<string>, inside: bool)
    requires Distinct(cols)
    ensures Distinct(Select(cols, cols, names, inside))
  {
    if cols != [] {
      SelectDistinct(cols[1..], names, inside);
      SelectLabels(cols[1..], names, inside);
      var rest := Select(cols[1..], cols[1..], names, inside);
      HeadNotInTail(cols);
    }
  }

  /** In a sequence without repeats the head does not recur and the tail has no repeats either. */
  lemma HeadNotInTail<T>(s: seq<T>)
    requires Distinct(s) && s != []
    ensures s[0] !in s[1..] && Distinct(s[1..])
  {
    forall j | 0 <= j < |s| - 1
      ensures s[1..][j] != s[0]
    {
      assert s[1..][j] == s[j + 1];
    }
  }

  /** The cell under the first column labelled `c`, if there is one. */
  function Get<T>(cols: seq<string>, xs: seq<T>, c: string): (r: Option<T>)
    requires |cols| == |xs|
    ensures r.Some? <==> c in cols
  {
    if cols == [] then None
    else if cols[0] == c then Some(xs[0])
    else Get(cols[1..], xs[1..], c)
  }

  /** The position of the first column labelled `c`, if there is one. */
  function ColumnIndex(cols: seq<string>, c: string): (r: Option<nat>)
    ensures r.Some? <==> c in cols
    ensures r.Some? ==> r.value < |cols| && cols[r.value] == c && c !in cols[..r.value]
  {
    if cols == [] then None
    else if cols[0] == c then Some(0)
    else
      match ColumnIndex(cols[1..], c)
      case None => None
      case Some(j) =>
        assert cols[..j + 1] == [cols[0]] + cols[1..][..j];
        Some(j + 1)
  }

  /** Looking up by label reads the cell at the label's position. */
  lemma {:induction false} GetAtIndex<T>(cols: seq<string>, xs: seq<T>, c: string)
    requires |cols| == |xs| && c in cols
    ensures Get(cols, xs, c) == Some(xs[ColumnIndex(cols, c).value])
  {
    if cols[0] != c {
      GetAtIndex(cols[1..], xs[1..], c);
    }
  }

  /** Selection does not disturb the lookup of a label on the selected side. */
  lemma {:induction false} SelectGet<T>(cols: seq<string>, xs: seq<T>, names: set<string>, inside: bool, c: string)
    requires |cols| == |xs|
    requires (c in names) == inside
    ensures |Select(cols, xs, names, inside)| == |Select(cols, cols, names, inside)|
    ensures Get(Select(cols, cols, names, inside), Select(cols, xs, names, inside), c) == Get(cols, xs, c)
  {
    SelectWidth(cols, xs, names, inside);
    if cols != [] {
      SelectGet(cols[1..], xs[1..], names, inside, c);
      var restCols := Select(cols[1..], cols[1..], names, inside);
      var restXs := Select(cols[1..], xs[1..], names, inside);
      if (cols[0] in names) == inside {
        var sc, sx := Select(cols, cols, names, inside), Select(cols, xs, names, inside);
        assert sc == [cols[0]] + restCols && sx == [xs[0]] + restXs;
        assert sc[1..] == restCols && sx[1..] == restXs;
      } else {
        assert cols[0] != c;
        assert Select(cols, cols, names, inside) == restCols;
        assert Select(cols, xs, names, inside) == restXs;
      }
    }
  }

  /** Python's `dict(zip(keys, values))`: a later duplicate key overwrites an earlier one. */
  function ZipDict(ks: seq<string>, vs: seq<Value>): (d: Props)
    requires |ks| == |vs|
    ensures d.Keys == set k | k in ks
  {
    if ks == [] then map[] else map[ks[0] := vs[0]] + ZipDict(ks[1..], vs[1..])
  }

  /** With distinct keys, the dict maps each key to the value beside it. */
  lemma {:induction false} ZipDictGet(ks: seq<string>, vs: seq<Value>, k: string)
    requires |ks| == |vs| && Distinct(ks) && k in ks
    ensures ZipDict(ks, vs)[k] == Get(ks, vs, k).value
  {
    if ks[0] != k {
      ZipDictGet(ks[1..], vs[1..], k);
    } else {
      HeadNotInTail(ks);
    }
  }

  /** `df[label] = values` for the column at position `k`: that column's cells replaced, row by row. */
  function SetColumn(t: Table, k: nat, vals: seq<Value>): (r: Table)
    requires WellFormed(t) && k < |t.columns| && |vals| == |t.rows|
    ensures WellFormed(r) && r.columns == t.columns && |r.rows| == |t.rows|
    ensures forall i :: 0 <= i < |t.rows| ==> r.rows[i][k] == vals[i]
    ensures forall i, j :: 0 <= i < |t.rows| && 0 <= j < |t.columns| && j != k ==> r.rows[i][j] == t.rows[i][j]
  {
    Table(t.columns, seq(|t.rows|, i requires 0 <= i < |t.rows| => t.rows[i][k := vals[i]]))
  }

  /** The cells of the column at position `k`, top to bottom. */
  function Column(t: Table, k: nat): (c: seq<Value>)
    requires WellFormed(t) && k < |t.columns|
    ensures |c| == |t.rows| && forall i :: 0 <= i < |t.rows| ==> c[i] == t.rows[i][k]
  {
    seq(|t.rows|, i requires 0 <= i < |t.rows| => t.rows[i][k])
  }

  /** `df.drop(columns=names)`: every dropped label must be present, as pandas demands. */
  function Drop(t: Table, names: set<string>): (r: Table)
    requires WellFormed(t) && names <= set c | c in t.columns
    ensures WellFormed(r) && |r.rows| == |t.rows|
    ensures r.columns == Select(t.columns, t.columns, names, false)
    ensures forall i :: 0 <= i < |t.rows| ==> r.rows[i] == Select(t.columns, t.rows[i], names, false)
  {
    var r := Table(
      Select(t.columns, t.columns, names, false),
      seq(|t.rows|, i requires 0 <= i < |t.rows| => Select(t.columns, t.rows[i], names, false)));
    forall i | 0 <= i < |t.rows|
      ensures |r.rows[i]| == |r.columns|
    {
      SelectWidth(t.columns, t.rows[i], names, false);
    }
    r
  }

  /** The label a rename map gives `c`: its image if it is a key, else itself. */
  function Renamed(renames: map<string, string>, c: string): string {
    if c in renames then renames[c] else c
  }

  /** Every label of `cols` renamed. */
  function RenameAll(renames: map<string, string>, cols: seq<string>): (r: seq<string>)
    ensures |r| == |cols|
    ensures forall i :: 0 <= i < |cols| ==> r[i] == Renamed(renames, cols[i])
  {
    if cols == [] then [] else [Renamed(renames, cols[0])] + RenameAll(renames, cols[1..])
  }

  /**
   * When the renamed labels are still distinct, the cell a label named
   * before renaming is the cell its new label names after.
   */
  lemma {:induction false} RenameGet<T>(renames: map<string, string>, cols: seq<string>, xs: seq<T>, c: string)
    requires |cols| == |xs| && c in cols
    requires Distinct(RenameAll(renames, cols))
    ensures Get(RenameAll(renames, cols), xs, Renamed(renames, c)) == Get(cols, xs, c)
  {
    var rc := RenameAll(renames, cols);
    if cols[0] != c {
      var j :| 0 <= j < |cols| && cols[j] == c;
      assert j != 0 && rc[0] != rc[j];
      assert cols[1..][j - 1] == c;
      assert rc[1..] == RenameAll(renames, cols[1..]);
      HeadNotInTail(rc);
      RenameGet(renames, cols[1..], xs[1..], c);
    }
  }

  /** Looking a label up in labels extended by one more column. */
  lemma {:induction false} GetAppend<T>(cols: seq<string>, xs: seq<T>, c: string, x: T, d: string)
    requires |cols| == |xs|
    ensures Get(cols + [c], xs + [x], d) == if d in cols then Get(cols, xs, d) else if d == c then Some(x) else None
  {
    if cols != [] {
      assert (cols + [c])[1..] == cols[1..] + [c];
      assert (xs + [x])[1..] == xs[1..] + [x];
      GetAppend(cols[1..], xs[1..], c, x, d);
    }
  }

  /** Dropping a trailing column that no other column shares a label with gives back the rest. */
  lemma {:induction false} SelectDropsLast<T>(cols: seq<string>, xs: seq<T>, c: string, x: T)
    requires |cols| == |xs| && c !in cols
    ensures Select(cols + [c], xs + [x], {c}, false) == xs
  {
    if cols == [] {
      assert Select([c], [x], {c}, false) == [] + Select([], [], {c}, false);
    } else {
      assert (cols + [c])[1..] == cols[1..] + [c];
      assert (xs + [x])[1..] == xs[1..] + [x];
      SelectDropsLast(cols[1..], xs[1..], c, x);
    }
  }

  /** Renaming keeps labels distinct when it maps distinct labels to distinct labels. */
  lemma RenameDistinct(renames: map<string, string>, cols: seq<string>)
    requires Distinct(cols)
    requires forall a, b :: a in cols && b in cols && a != b ==> Renamed(renames, a) != Renamed(renames, b)
    ensures Distinct(RenameAll(renames, cols))
  {
    var r := RenameAll(renames, cols);
    forall i, j | 0 <= i < j < |r|
      ensures r[i] != r[j]
    {
      assert cols[i] != cols[j];
    }
  }

  /** Renaming lands in `targets` when every label's new name does. */
  lemma RenameAllInto(renames: map<string, string>, cols: seq<string>, targets: set<string>)
    requires forall i :: 0 <= i < |cols| ==> Renamed(renames, cols[i]) in targets
    ensures forall c :: c in RenameAll(renames, cols) ==> c in targets
  {
  }

  /** A label's new name is among the renamed labels. */
  lemma RenameAllHas(renames: map<string, string>, cols: seq<string>, a: string)
    requires a in cols
    ensures Renamed(renames, a) in RenameAll(renames, cols)
  {
    var j :| 0 <= j < |cols| && cols[j] == a;
    assert RenameAll(renames, cols)[j] == Renamed(renames, a);
  }
}
