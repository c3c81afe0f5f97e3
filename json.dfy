/**
  Parsed JSON values and JavaScript's `Number(...)` coercion on them, as the threat feed
  applies it to NVD metric payloads and to request fields.
 */
module Json {
  import opened Wrappers

  /** A parsed JSON value. Numbers are exact; JSON has no NaN or infinities. */
  datatype Json =
    | JNull
    | JBool(b: bool)
    | JNum(n: real)
    | JStr(s: string)
    | JArr(elems: seq<Json>)
    | JObj(fields: map<string, Json>)

  /** The host's own parsers, which the model takes as given: `new Date(s).getTime()`
      (None for an invalid date) and `Number(s)` on a string (None when the result is NaN
      or infinite). */
  datatype Parsers = Parsers(parseDate: string -> Option<int>, stringToNumber: string -> Option<real>)

  /** `v?.name`: the field of an object, `undefined` (None) for anything else. */
  function Field(v: Option<Json>, name: string): (r: Option<Json>)
    ensures r.Some? <==> v.Some? && v.value.JObj? && name in v.value.fields
  {
    match v
    case Some(JObj(f)) => if name in f then Some(f[name]) else None
    case _ => None
  }

  /** `Number(String(x))` for an element `x` of a one-element array: inside an array
      `null` prints as "" and a nested array prints as its elements joined by ",". */
  function ElementNumber(x: Json, p: Parsers): Option<real>
    decreases x
  {
    match x
    case JNull => Some(0.0)
    case JBool(_) => None
    case JNum(n) => Some(n)
    case JStr(s) => p.stringToNumber(s)
    case JArr(e) => if |e| == 0 then Some(0.0) else if |e| >= 2 then None else ElementNumber(e[0], p)
    case JObj(_) => None
  }

  /** `Number(v)`, None when the result is NaN or infinite. An array of two or more
      elements prints with a comma and never reads as a number. */
  function ToNumber(v: Option<Json>, p: Parsers): (r: Option<real>)
    ensures v.Some? && v.value.JNum? ==> r == Some(v.value.n)
    ensures v.None? || (v.Some? && v.value.JObj?) ==> r.None?
  {
    match v
    case None => None
    case Some(JNull) => Some(0.0)
    case Some(JBool(b)) => Some(if b then 1.0 else 0.0)
    case Some(JNum(n)) => Some(n)
    case Some(JStr(s)) => p.stringToNumber(s)
    case Some(JArr(e)) => if |e| == 0 then Some(0.0) else if |e| >= 2 then None else ElementNumber(e[0], p)
    case Some(JObj(_)) => None
  }
}
