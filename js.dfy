/** The JavaScript semantics the frontend relies on: `undefined` beside the
    JSON values, truthiness, property access (which throws on `null` and
    `undefined`), optional chaining, `String(...)` as `localStorage.setItem`
    applies it, and `URLSearchParams.get`. */
module Js {
  import opened Wrappers
  import opened Json
  import Text

  /** A JavaScript value as the handlers see one: `undefined` or a JSON value. */
  datatype JsValue = Undefined | Val(j: Json)

  /** The result of evaluating an expression that may throw a TypeError. */
  datatype Eval<+T> = Done(value: T) | Threw {
    predicate IsFailure() { Threw? }

    function PropagateFailure<U>(): Eval<U>
      requires Threw?
    {
      Threw
    }

    function Extract(): T
      requires Done?
    {
      value
    }
  }

  /** JavaScript truthiness: `undefined`, `null`, 0 and "" are falsy; every
      array and every object, even an empty one, is truthy. */
  predicate Truthy(v: JsValue) {
    match v
    case Undefined => false
    case Val(j) =>
      match j
      case JNull => false
      case JInt(i) => i != 0
      case JStr(s) => s != ""
      case JArray(_) => true
      case JObject(_) => true
  }

  /** The own data property `key` of a value; anything else has none. */
  function Own(j: Json, key: string): JsValue {
    if j.JObject? && key in j.fields then Val(j.fields[key]) else Undefined
  }

  /** `v.key`: a TypeError on `undefined` and `null`. */
  function Get(v: JsValue, key: string): (r: Eval<JsValue>)
    ensures r.Threw? <==> v == Undefined || v == Val(JNull)
  {
    match v
    case Undefined => Threw
    case Val(j) => if j.JNull? then Threw else Done(Own(j, key))
  }

  /** `v?.key`: `undefined` instead of a TypeError. */
  function OptGet(v: JsValue, key: string): (r: JsValue)
    ensures Get(v, key).Done? ==> r == Get(v, key).value
    ensures Get(v, key).Threw? ==> r == Undefined
  {
    if v == Undefined || v == Val(JNull) then Undefined else Own(v.j, key)
  }

  /** `String(v)` for a value inside an array: `null` and `undefined` are
      written as nothing. */
  function ElementString(j: Json): string
    decreases j, 1
  {
    if j.JNull? then "" else JsonString(j)
  }

  /** `String(v)` of a JSON value: arrays are joined with commas, objects
      are "[object Object]". */
  function JsonString(j: Json): string
    decreases j, 0
  {
    match j
    case JNull => "null"
    case JInt(i) => Text.IntToString(i)
    case JStr(s) => s
    case JArray(xs) => Text.JoinWith(",", seq(|xs|, k requires 0 <= k < |xs| => ElementString(xs[k])))
    case JObject(_) => "[object Object]"
  }

  /** `String(v)`: what `localStorage.setItem` stores. */
  function ToStorageString(v: JsValue): (s: string)
    ensures v == Undefined ==> s == "undefined"
    ensures v == Val(JNull) ==> s == "null"
    ensures forall t :: v == Val(JStr(t)) ==> s == t
  {
    match v
    case Undefined => "undefined"
    case Val(j) => JsonString(j)
  }

  /** `new URLSearchParams(search).get(key)`: the first value given for the
      key, or `null` (None). */
  function QueryGet(query: seq<(string, string)>, key: string): (r: Option<string>)
    ensures r.Some? <==> exists i :: 0 <= i < |query| && query[i].0 == key
    ensures r.Some? ==> exists i :: 0 <= i < |query| && query[i] == (key, r.value)
                                    && forall k :: 0 <= k < i ==> query[k].0 != key
  {
    if query == [] then None
    else if query[0].0 == key then Some(query[0].1)
    else
      var r := QueryGet(query[1..], key);
      if r.Some? then
        var i :| 0 <= i < |query[1..]| && query[1..][i] == (key, r.value) && forall k :: 0 <= k < i ==> query[1..][k].0 != key;
        assert query[i + 1] == (key, r.value);
        assert forall k :: 0 <= k < i + 1 ==> query[k].0 != key by {
          forall k | 0 <= k < i + 1 ensures query[k].0 != key {
            if k > 0 { assert query[k] == query[1..][k - 1]; }
          }
        }
        r
      else
        assert forall i :: 1 <= i < |query| ==> query[i] == query[1..][i - 1];
        r
  }
}
