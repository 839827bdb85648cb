/** Parsed JSON and YAML documents, and Python's truthiness of such values. */
module Values {

  /** A parsed document; `VNull` is Python's `None` (also what loading an empty YAML file gives). */
  datatype Value =
    | VNull
    | VBool(b: bool)
    | VInt(i: int)
    | VStr(s: string)
    | VList(items: seq<Value>)
    | VMap(fields: map<string, Value>)

  /** `bool(v)`: None, False, 0 and empty strings, lists and mappings are false. */
  predicate Truthy(v: Value) {
    match v
    case VNull => false
    case VBool(b) => b
    case VInt(i) => i != 0
    case VStr(s) => s != []
    case VList(items) => items != []
    case VMap(fields) => fields != map[]
  }

  const EmptyMap: Value := VMap(map[])
  const EmptyList: Value := VList([])
}
