/**
 * Decoded JSON values as the Python scripts see them after `json.loads`,
 * with the three Python operations they apply to them: truthiness, `str()`
 * and `int()`. JSON decoding itself is not modelled; a line's decoding is an
 * input.
 */
module Json {
  import opened Wrappers
  import opened Strings

  datatype JVal =
    | JNull
    | JBool(b: bool)
    | JInt(i: int)
    | JStr(s: string)
    | JObj(fields: map<string, JVal>, text: string)  // text: its str() rendering, which depends on a key order the map does not keep
    | JOther(truthy: bool, text: string)            // floats and arrays: only their truth value and str() are used

  /** Python truthiness. */
  predicate Truthy(v: JVal)
  {
    match v
    case JNull => false
    case JBool(b) => b
    case JInt(i) => i != 0
    case JStr(s) => |s| > 0
    case JObj(m, _) => |m| > 0
    case JOther(t, _) => t
  }

  /** `str(v)`, which is also what an f-string renders. */
  function Str(v: JVal): string
  {
    match v
    case JNull => "None"
    case JBool(b) => if b then "True" else "False"
    case JInt(i) => IntToDecimal(i)
    case JStr(s) => s
    case JObj(_, t) => t
    case JOther(_, t) => t
  }

  /** `int(v)`: None where Python raises. */
  function PyInt(v: JVal): Option<int>
  {
    match v
    case JInt(i) => Some(i)
    case JBool(b) => Some(if b then 1 else 0)
    case JStr(s) => PyParseInt(s)
    case _ => None
  }

  /** `obj[k]` on a decoded object: None where Python raises (a missing key, or a value that is not an object). */
  function Get(v: JVal, k: string): Option<JVal>
  {
    if v.JObj? && k in v.fields then Some(v.fields[k]) else None
  }

  /** `obj.get(k, default)` on a decoded object. */
  function GetOr(v: JVal, k: string, default: JVal): Option<JVal>
  {
    if v.JObj? then Some(if k in v.fields then v.fields[k] else default) else None
  }

  /** `obj[a][b]`. */
  function Get2(v: JVal, a: string, b: string): Option<JVal>
  {
    match Get(v, a)
    case None => None
    case Some(w) => Get(w, b)
  }

  /** `needle in v`: a substring test on a string, a key test on an object; None where Python raises or the container is not modelled. */
  function ContainsOp(needle: string, v: JVal): Option<bool>
  {
    match v
    case JStr(s) => Some(Contains(s, needle))
    case JObj(m, _) => Some(needle in m)
    case _ => None
  }
}
