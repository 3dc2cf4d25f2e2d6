/**
 * Decoded JSON values, and the few Python operations the core applies to
 * them: truthiness, `isinstance` checks, and `int()` conversion.
 */
module Json {
  import opened Wrappers
  import opened Text

  /**
   * A decoded JSON value. Numbers written with a fraction or exponent are
   * floats (kept as exact reals); objects map each key to its last value.
   */
  datatype Json =
    | JNull
    | JBool(b: bool)
    | JInt(i: int)
    | JFloat(f: real)
    | JString(s: string)
    | JArray(items: seq<Json>)
    | JObject(members: map<string, Json>)

  /** A value that is not an object: where the core calls `.get` or subscripts by key, it raises. */
  type NonObjectJson = v: Json | !v.JObject? witness JNull

  /** A value that is not a list. */
  type NonListJson = v: Json | !v.JArray? witness JNull

  /** A value that is neither a list nor an object: a string, a number, a boolean or null. */
  type ScalarJson = v: Json | !v.JArray? && !v.JObject? witness JNull

  /** Python truthiness: null, false, zero and empty containers are false. */
  predicate Truthy(v: Json)
  {
    match v
    case JNull => false
    case JBool(b) => b
    case JInt(i) => i != 0
    case JFloat(f) => f != 0.0
    case JString(s) => s != []
    case JArray(items) => items != []
    case JObject(members) => members != map[]
  }

  /** `isinstance(v, int)`: a Python bool is an int too. */
  predicate IsPyInt(v: Json)
  {
    v.JInt? || v.JBool?
  }

  /** The three outcomes of `int(v)`. */
  datatype IntConversion = Converted(n: int) | ValueError | TypeError

  /** Python's `int(f)` on a float: truncation toward zero. */
  function TruncateReal(f: real): (n: int)
    ensures 0.0 <= f ==> n as real <= f < n as real + 1.0
    ensures f < 0.0 ==> n as real - 1.0 < f <= n as real
  {
    if f >= 0.0 then f.Floor else -((-f).Floor)
  }

  /**
   * Python's `int(v)`: booleans give 0 or 1, floats truncate, strings are
   * parsed as decimal integers (a `ValueError` otherwise), and null,
   * arrays and objects raise `TypeError`.
   */
  function PyInt(v: Json): (r: IntConversion)
    ensures v.JInt? ==> r == Converted(v.i)
    ensures v.JString? ==> (r.ValueError? <==> ParseInt(v.s).None?)
    ensures r.TypeError? <==> (v.JNull? || v.JArray? || v.JObject?)
  {
    match v
    case JBool(b) => Converted(if b then 1 else 0)
    case JInt(i) => Converted(i)
    case JFloat(f) => Converted(TruncateReal(f))
    case JString(s) => (match ParseInt(s) case Some(n) => Converted(n) case None => ValueError)
    case _ => TypeError
  }

  /**
   * What `json.load` made of a configuration file: nothing usable (the
   * file is missing, unreadable, or not valid JSON) or a decoded value.
   */
  datatype ConfigFile = Unavailable | Decoded(content: Json)

  /** A string holding an integer's decimal spelling converts back to that integer. */
  lemma PyIntOfDecimalString(n: int)
    ensures PyInt(JString(IntToString(n))) == Converted(n)
  {
    ParseIntOfString(n);
  }
}
