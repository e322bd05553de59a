/** JSON values as both halves of the system exchange them, and the Python
    operations the backend applies to them (`dict.get`, truthiness, `for`,
    `in`, subscripting, `int(...)`), each with the exception it raises when
    the value has the wrong shape. */
module Json {
  import opened Python
  import Text

  /** A JSON value. Booleans and non-integer numbers are not part of the model. */
  datatype Json =
    | JNull
    | JInt(i: int)
    | JStr(s: string)
    | JArray(items: seq<Json>)
    | JObject(fields: map<string, Json>)

  const EmptyObject: Json := JObject(map[])
  const EmptyArray: Json := JArray([])

  /** Python truthiness: None, 0, "", [] and {} are false. */
  predicate PyTruthy(j: Json) {
    match j
    case JNull => false
    case JInt(i) => i != 0
    case JStr(s) => s != ""
    case JArray(xs) => xs != []
    case JObject(m) => m != map[]
  }

  /** `d.get(key, default)`: only a dict has `.get`; on anything else it is an
      AttributeError. */
  function GetOr(d: Json, key: string, default: Json): Outcome<Json> {
    match d
    case JObject(m) => Ok(if key in m then m[key] else default)
    case _ => Raised(Fault)
  }

  /** `d.get(key, default)` on a value known to be a dict. */
  function GetField(m: map<string, Json>, key: string, default: Json): Json {
    if key in m then m[key] else default
  }

  /** `d.get(key)` on a dict: None when the key is absent. */
  function Lookup(m: map<string, Json>, key: string): Json {
    GetField(m, key, JNull)
  }

  /** What `for x in j` walks over. A list yields its items. A dict yields
      its keys and a str its one-character strs: no loop in the model looks
      inside those strs (each one either skips them or fails on them), so
      only how many there are is kept. */
  datatype Iteration = Items(items: seq<Json>) | Strs(count: nat)

  /** `iter(j)`: an int or None is not iterable (TypeError). */
  function Iterate(j: Json): Outcome<Iteration> {
    match j
    case JArray(xs) => Ok(Items(xs))
    case JObject(m) => Ok(Strs(|m|))
    case JStr(s) => Ok(Strs(|s|))
    case _ => Raised(Fault)
  }

  /** `key in j`: a key of a dict, an item of a list, a substring of a str;
      TypeError for an int or None. */
  function Contains(j: Json, key: string): Outcome<bool> {
    match j
    case JObject(m) => Ok(key in m)
    case JArray(xs) => Ok(JStr(key) in xs)
    case JStr(s) => Ok(Text.IsSubstring(key, s))
    case _ => Raised(Fault)
  }

  /** `j[key]` with a str key: only a dict accepts it (KeyError when absent). */
  function Subscript(j: Json, key: string): Outcome<Json> {
    match j
    case JObject(m) => if key in m then Ok(m[key]) else Raised(Fault)
    case _ => Raised(Fault)
  }

  /** `int(j)` on an integer quantity; anything else raises. */
  function ToInt(j: Json): Outcome<int> {
    match j
    case JInt(i) => Ok(i)
    case _ => Raised(Fault)
  }
}
