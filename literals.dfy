/**
 * Values as Python's literal evaluator produces them and as a dataframe cell
 * holds them, and the property maps attached to graph nodes and edges.
 */
module Literals {
  import opened Wrappers

  /** A Python literal: None, bool, int, float, str, list or str-keyed dict. */
  datatype Value =
    | Null
    | Bool(b: bool)
    | Int(i: int)
    | Float(r: real)
    | Str(s: string)
    | List(items: seq<Value>)
    | Dict(entries: map<string, Value>)

  /** A decoded properties column: a dict from key to value. */
  type Props = map<string, Value>

  /**
   * The literal evaluator, left abstract: it either rejects the text or
   * yields the mapping the text denotes.
   */
  type Decoder = string -> Option<Props>

  /**
   * `after` is `before` with every key of `updates` set to the value it has
   * there; every other key of `before` keeps its value and no key is lost or
   * invented.
   */
  ghost predicate Overrides(before: Props, after: Props, updates: Props) {
    && after.Keys == before.Keys + updates.Keys
    && (forall k :: k in updates ==> after[k] == updates[k])
    && (forall k :: k in before && k !in updates ==> after[k] == before[k])
  }

  /** Python's `{**base, **top}` and `base.update(top)`: on a shared key `top` wins. */
  function Merge(base: Props, top: Props): (r: Props)
    ensures Overrides(base, r, top)
  {
    base + top
  }
}
