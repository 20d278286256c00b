/**
 * The value `JSON.parse` hands to the pipeline, and the two JavaScript
 * coercions the normaliser applies to it: `String(v)` and `Number(v)`.
 * Numbers are integers; an absent property (`undefined`) is `None`.
 */
module Json {
  import opened Basics
  import opened Text

  datatype Json =
    | JNull
    | JBool(b: bool)
    | JNumber(n: int)
    | JString(s: string)
    | JArray(items: seq<Json>)
    | JObject(fields: map<string, Json>)

  /** `v.key` on a value that is not `null`: only an object has own properties. */
  function Get(v: Json, key: string): (r: Option<Json>)
    ensures r.Some? <==> v.JObject? && key in v.fields
    ensures r.Some? ==> r.value == v.fields[key]
  {
    if v.JObject? && key in v.fields then Some(v.fields[key]) else None
  }

  /** `Array.isArray(x)` for a property that may be `undefined`. */
  predicate IsArray(x: Option<Json>) {
    x.Some? && x.value.JArray?
  }

  /** The elements of a property known to be an array. */
  function Elements(x: Option<Json>): seq<Json>
    requires IsArray(x)
  {
    x.value.items
  }

  /** `String(v)`; an object is printed as `[object Object]`. */
  function ToStr(v: Json): (r: string)
    ensures v.JString? ==> r == v.s
    decreases v, 1
  {
    match v
    case JNull => "null"
    case JBool(b) => if b then "true" else "false"
    case JNumber(n) => IntToString(n)
    case JString(s) => s
    case JArray(items) => Join(ElementStrings(v, items), ",")
    case JObject(_) => "[object Object]"
  }

  /** What `Array.prototype.join` prints for each element: `null` becomes the empty string. */
  function ElementStrings(v: Json, items: seq<Json>): (r: seq<string>)
    requires v == JArray(items)
    ensures |r| == |items|
    decreases v, 0
  {
    seq(|items|, i requires 0 <= i < |items| => if items[i].JNull? then "" else ToStr(items[i]))
  }

  /** `xs.map(String)`. */
  function Strings(xs: seq<Json>): (r: seq<string>)
    ensures |r| == |xs|
    ensures forall i :: 0 <= i < |xs| ==> r[i] == ToStr(xs[i])
  {
    seq(|xs|, i requires 0 <= i < |xs| => ToStr(xs[i]))
  }

  /**
   * `Number(x)`, where `None` stands for NaN: `undefined` and objects are NaN,
   * `null` is 0, booleans are 0 and 1, strings and arrays go through their text.
   */
  function ToNumber(x: Option<Json>): (r: Option<int>)
    ensures x.Some? && x.value.JNumber? ==> r == Some(x.value.n)
    ensures x.None? ==> r.None?
  {
    match x
    case None => None
    case Some(JNull) => Some(0)
    case Some(JBool(b)) => Some(if b then 1 else 0)
    case Some(JNumber(n)) => Some(n)
    case Some(JString(s)) => StringToNumber(s)
    case Some(JArray(items)) => StringToNumber(ToStr(JArray(items)))
    case Some(JObject(_)) => None
  }

  /** A number printed into a JSON string still coerces back to that number. */
  lemma NumericStringCoerces(n: int)
    ensures ToNumber(Some(JString(IntToString(n)))) == Some(n)
  {
    IntToStringNumber(n);
  }
}
