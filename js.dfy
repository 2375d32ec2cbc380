/**
 * The small slice of JavaScript object semantics that the row normalisers
 * rely on: values that are either a string or `undefined`, plain objects used
 * as dictionaries, property reads that yield `undefined` for a missing
 * property, the conversion of a property-key expression to a string, and the
 * truthiness test behind `!x` and `x || y`.
 */
module Js {

  datatype Option<T> = None | Some(value: T)

  /** A JavaScript value that is either a string or `undefined` (None). */
  type Value = Option<string>

  /**
   * A plain object used as a dictionary. A property can exist and hold
   * `undefined`, which is why the range is Value and not string.
   */
  type Record = map<string, Value>

  /** Reading `o[k]` or `o.k`: a missing property reads as `undefined`. */
  function Get(o: Record, k: string): Value
  {
    if k in o then o[k] else None
  }

  /** Reading a configuration table whose entries are strings. */
  function Lookup(table: map<string, string>, k: string): Value
  {
    if k in table then Some(table[k]) else None
  }

  /**
   * The property name that `o[v]` uses: `undefined` becomes the
   * string "undefined", a string is used as it is.
   */
  function PropertyKey(v: Value): string
  {
    match v
    case None => "undefined"
    case Some(s) => s
  }

  /** JavaScript truthiness on strings and `undefined`: only a non-empty string is truthy. */
  predicate Truthy(v: Value)
  {
    v.Some? && v.value != ""
  }

  /** `a || b`: `a` when it is truthy, otherwise `b`. */
  function Or(a: Value, b: Value): Value
  {
    if Truthy(a) then a else b
  }
}
