/**
 * An abstract JSON value and the nlohmann::json accessors the language
 * server client uses on it.  Parsing and dumping JSON text belong to the
 * library and are not modelled here; numbers are integers.
 */
module JsonValue {
  import opened Strings

  datatype Json =
    | JNull
    | JBool(b: bool)
    | JNum(n: int)
    | JStr(s: string)
    | JArr(elems: seq<Json>)
    | JObj(members: map<string, Json>)

  /** json::contains(key): only an object contains keys. */
  predicate Contains(j: Json, key: string) {
    j.JObj? && key in j.members
  }

  function Member(j: Json, key: string): Json
    requires Contains(j, key)
  {
    j.members[key]
  }

  /**
   * get<int>(): numbers (keeping their low 32 bits) and booleans convert;
   * any other value throws, shown as `None`.
   */
  function AsInt(j: Json): (r: Option<Int32>)
    ensures r.Some? <==> j.JNum? || j.JBool?
    ensures j.JNum? && INT_MIN <= j.n <= INT_MAX ==> r == Some(j.n)
  {
    match j
    case JNum(n) => Some(ToInt32(n))
    case JBool(b) => Some(if b then 1 else 0)
    case _ => None
  }

  /**
   * value(key, default) with a string default: throws on a non-object or
   * on a member that is not a string; the default when the key is absent.
   */
  function StringValue(j: Json, key: string, default: string): (r: Option<string>)
    ensures r.Some? <==> j.JObj? && (key in j.members ==> j.members[key].JStr?)
    ensures j.JObj? && key !in j.members ==> r == Some(default)
    ensures r.Some? && key in j.members ==> r.value == j.members[key].s
  {
    if !j.JObj? then None
    else if key !in j.members then Some(default)
    else match j.members[key]
      case JStr(s) => Some(s)
      case _ => None
  }

  /** value(key, default) with an integer default. */
  function IntValue(j: Json, key: string, default: Int32): (r: Option<Int32>)
    ensures r.Some? <==> j.JObj? && (key in j.members ==> AsInt(j.members[key]).Some?)
    ensures j.JObj? && key !in j.members ==> r == Some(default)
  {
    if !j.JObj? then None
    else if key !in j.members then Some(default)
    else AsInt(j.members[key])
  }

  /**
   * j[k1][k2] read through the non-const operator[] and converted with
   * get<int>(): a missing key yields a null, and converting a null (or
   * indexing a non-object) throws.
   */
  function PathInt(j: Json, k1: string, k2: string): (r: Option<Int32>)
    ensures r.Some? ==> Contains(j, k1) && Contains(Member(j, k1), k2)
  {
    if Contains(j, k1) && Contains(Member(j, k1), k2) then AsInt(Member(Member(j, k1), k2))
    else None
  }
}
