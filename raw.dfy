/**
 * The loosely-typed records the open-data API returns, as Python's `json`
 * module decodes them, and the few operations the command applies to them
 * directly: truthiness, `item.get(key)` and `(value or "").strip()`.
 */
module Raw {
  import opened Wrappers
  import opened Text

  /** A Python float. A finite one is modelled by its exact real value. */
  datatype Number = Finite(value: real) | Infinity(negative: bool) | NaN

  /**
   * A decoded JSON value. Arrays and objects are kept only as their size:
   * the command never looks inside a nested value, only at whether it is empty.
   */
  datatype Json =
    | JNull
    | JBool(b: bool)
    | JInt(i: int)
    | JFloat(x: Number)
    | JStr(s: string)
    | JArray(length: nat)
    | JObject(size: nat)

  /** One element of the response's `records` list. */
  type RawItem = map<string, Json>

  /**
   * Python's `bool(v)`: the falsy values are exactly `None`, `False`, `0`,
   * `0.0`, `""`, `[]` and `{}`.
   */
  predicate Truthy(v: Json)
    ensures !Truthy(v) <==>
              v in {JNull, JBool(false), JInt(0), JFloat(Finite(0.0)), JStr(""), JArray(0), JObject(0)}
  {
    match v
    case JNull => false
    case JBool(b) => b
    case JInt(i) => i != 0
    case JFloat(x) => !(x.Finite? && x.value == 0.0)
    case JStr(s) => s != []
    case JArray(n) => n > 0
    case JObject(n) => n > 0
  }

  /** `item.get(key, default)`. */
  function GetOr(item: RawItem, key: string, default: Json): (v: Json)
    ensures key in item ==> v == item[key]
    ensures key !in item ==> v == default
  {
    if key in item then item[key] else default
  }

  /** `item.get(key)`: a missing key reads as `None`. */
  function Get(item: RawItem, key: string): Json {
    GetOr(item, key, JNull)
  }

  /**
   * `(v or "").strip()`. A falsy value reads as the empty text and a string is
   * stripped; any other truthy value has no `strip` method, so Python raises
   * AttributeError, given here as `None`.
   */
  function StrippedText(v: Json): (r: Option<string>)
    ensures r.None? <==> Truthy(v) && !v.JStr?
    ensures !Truthy(v) ==> r == Some("")
    ensures Truthy(v) && v.JStr? ==> r == Some(Strip(v.s))
    ensures r.Some? ==> r.value == [] || (!IsSpace(r.value[0]) && !IsSpace(r.value[|r.value| - 1]))
  {
    if !Truthy(v) then Some("")
    else if v.JStr? then Some(Strip(v.s))
    else None
  }
}
