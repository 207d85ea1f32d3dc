/**
 * The JavaScript values that the adapter puts into and reads out of the store.
 * Numbers are whole millisecond counts here, so they are modelled as `int`.
 */
module JsValues {
  datatype Value =
    | Null
    | Bool(b: bool)
    | Num(n: int)
    | Str(s: string)
    | Obj(fields: map<string, Value>)

  /** A plain object: its own enumerable properties, by name. */
  type Record = map<string, Value>
}
