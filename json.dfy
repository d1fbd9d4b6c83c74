/**
  The untyped JSON tree that configuration sources load into (serde_json's
  `Value`). Numbers are integers only; floating point is not modelled.
 */
module Json {

  datatype Value =
    | Null
    | Bool(b: bool)
    | Number(n: int)
    | String(str: string)
    | Array(items: seq<Value>)
    | Object(members: map<string, Value>)

  /** The empty object `{}`. */
  function EmptyObject(): (r: Value)
    ensures r.Object? && r.members == map[]
  {
    Object(map[])
  }

  /**
    Indexing by a key, `value[key]`: the member's value when `v` is an object
    holding `key`, and `Null` for a missing key or a non-object `v`; it never fails.
   */
  function Index(v: Value, key: string): (r: Value)
    ensures r != Null ==> v.Object? && key in v.members && r == v.members[key]
    ensures v.Object? && key in v.members ==> r == v.members[key]
  {
    if v.Object? && key in v.members then v.members[key] else Null
  }

  /**
    Indexing along a sequence of keys, one key after the other, as the
    two-cursor walk of a dotted-path read does: once a step reaches `null`,
    every further step stays at `null`.
   */
  function Lookup(v: Value, path: seq<string>): (r: Value)
    ensures v == Null ==> r == Null
    ensures r != Null && path != [] ==> v.Object? && path[0] in v.members
    decreases path
  {
    if path == [] then v else Lookup(Index(v, path[0]), path[1..])
  }
}
