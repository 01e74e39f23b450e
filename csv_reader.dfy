/**
 * The CSV row generator both scripts define: open the file, optionally skip
 * one header row, then yield every remaining row as a tuple of fields.
 * Tokenising the file is left to the caller: a file is given as the rows the
 * CSV reader would produce, or as unreadable.
 */
module CsvReader {
  import opened Wrappers
  import opened Streams

  /** The fields of one CSV line, in order. */
  type Row = seq<string>

  /** A CSV file as the reader sees it. */
  datatype CsvFile = Unreadable | Records(rows: seq<Row>)

  /**
   * What the generator yields. Opening fails for an unreadable file; with a
   * header expected, an empty file makes the header skip raise (the
   * StopIteration escapes the generator as a RuntimeError).
   */
  function CsvRows(file: CsvFile, header: bool): (s: Stream<Row>)
    ensures file.Unreadable? ==> s == Stream([], Some(FileAccess))
    ensures file.Records? && header && file.rows == [] ==> s == Stream([], Some(NoHeaderRow))
    ensures file.Records? && !(header && file.rows == []) ==>
      var skip := if header then 1 else 0;
      && s.stop.None?
      && |s.items| == |file.rows| - skip
      && forall i :: 0 <= i < |s.items| ==> s.items[i] == file.rows[i + skip]
  {
    match file
    case Unreadable => Stream([], Some(FileAccess))
    case Records(rows) =>
      if header && rows == [] then Stream([], Some(NoHeaderRow))
      else Stream(if header then rows[1..] else rows, None)
  }

  /** The generator's loop: skip the header, then yield the rows one by one. */
  method LoadCsvGenerator(file: CsvFile, header: bool) returns (s: Stream<Row>)
    ensures s == CsvRows(file, header)
  {
    if file.Unreadable? {
      return Stream([], Some(FileAccess));
    }
    var rows := file.rows;
    var next := 0;
    if header {
      if rows == [] {
        return Stream([], Some(NoHeaderRow));
      }
      next := 1;
    }
    var start := next;
    var yielded: seq<Row> := [];
    while next < |rows|
      invariant start <= next <= |rows|
      invariant yielded == rows[start..next]
    {
      yielded := yielded + [rows[next]];
      next := next + 1;
    }
    s := Stream(yielded, None);
  }
}
