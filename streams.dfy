/**
 * Errors of the pipeline and the model of a Python generator that yields
 * records one row at a time and may raise partway through.
 */
module Streams {
  import opened Wrappers

  /** Every way the pipeline can abort; none of them is recovered from. */
  datatype Error =
    | FileAccess                          // the CSV file cannot be opened
    | NoHeaderRow                         // a header is expected but the file has no row at all
    | Unpack(expected: nat, actual: nat)  // a row has the wrong number of fields to destructure
    | Undecodable                         // the literal evaluator rejects a properties cell
    | NotAMapping                         // a value that must be a dict is not one
    | MissingColumns(names: set<string>)  // a column label the code looks up is absent
    | UnboundKeep                         // the keep-intact argument is neither a list nor a dict
    | ColumnClash(name: string)           // a kept column already carries the collapsed column's name

  type Outcome<T> = Result<T, Error>

  /** What a generator produced: the records it yielded, then how it stopped. */
  datatype Stream<T> = Stream(items: seq<T>, stop: Option<Error>)

  /**
   * A generator that converts each input row with `f`, yielding the result,
   * and raises the first error `f` reports; rows after that one are never
   * looked at.
   */
  function MapRows<A, B>(xs: seq<A>, f: A -> Outcome<B>): (s: Stream<B>)
    ensures |s.items| <= |xs|
  {
    if xs == [] then Stream([], None)
    else match f(xs[0])
      case Err(e) => Stream([], Some(e))
      case Ok(y) =>
        var rest := MapRows(xs[1..], f);
        Stream([y] + rest.items, rest.stop)
  }

  /**
   * The yielded records are exactly the conversions of the longest prefix of
   * rows that convert, in order, one per row; the generator stops cleanly only
   * if every row converts, and otherwise raises the error of the first row
   * that does not.
   */
  lemma {:induction false} MapRowsExact<A, B>(xs: seq<A>, f: A -> Outcome<B>)
    ensures var s := MapRows(xs, f);
      && (forall i :: 0 <= i < |s.items| ==> f(xs[i]) == Ok(s.items[i]))
      && (s.stop.None? ==> |s.items| == |xs|)
      && (s.stop.Some? ==> |s.items| < |xs| && f(xs[|s.items|]) == Err(s.stop.value))
  {
    if xs != [] && f(xs[0]).Ok? {
      MapRowsExact(xs[1..], f);
      var s := MapRows(xs, f);
      var rest := MapRows(xs[1..], f);
      forall i | 0 <= i < |s.items|
        ensures f(xs[i]) == Ok(s.items[i])
      {
        if i > 0 {
          assert xs[i] == xs[1..][i - 1];
        }
      }
      if s.stop.Some? {
        assert xs[|s.items|] == xs[1..][|rest.items|];
      }
    }
  }

  /** A generator stops cleanly exactly when every row converts. */
  lemma MapRowsCleanIffAllConvert<A, B>(xs: seq<A>, f: A -> Outcome<B>)
    ensures MapRows(xs, f).stop.None? <==> forall i :: 0 <= i < |xs| ==> f(xs[i]).Ok?
  {
    MapRowsExact(xs, f);
  }

  /** `list(generator)`: the whole output, or the exception the generator raised. */
  function Collect<T>(s: Stream<T>): (r: Outcome<seq<T>>)
    ensures r.Ok? <==> s.stop.None?
    ensures r.Ok? ==> r.value == s.items
    ensures r.Err? ==> r.error == s.stop.value
  {
    match s.stop
    case None => Ok(s.items)
    case Some(e) => Err(e)
  }
}
