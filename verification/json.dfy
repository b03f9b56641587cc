/** The parsed form of a JSON document, as `JSONSerialization` hands it to the catalog. */
module Json {
  import opened Wrappers
  import opened Dict

  datatype Value =
    | Null
    | Bool(b: bool)
    | Num(n: real)
    | Str(s: string)
    | Arr(items: seq<Value>)
    | Obj(members: Dict<string, Value>)

  /** A value Swift's `as? [String: Any]` accepts. */
  predicate IsDictionary(v: Option<Value>) {
    v.Some? && v.value.Obj?
  }
}
