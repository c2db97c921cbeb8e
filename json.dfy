/**
 * The JSON values a request body or a provider payload can hold, after
 * Python's `json` module has decoded them, and the two pieces of Python
 * semantics the proxy relies on: the name of a value's type (it appears in
 * the message of an AttributeError) and equality against an int literal.
 */
module Json {

  datatype Value =
    | JNull
    | JBool(b: bool)
    | JInt(i: int)
    | JFloat(r: real)
    | JString(s: string)
    | JArray(items: seq<Value>)
    | JObject(fields: map<string, Value>)

  /** `type(v).__name__` for the Python object that `json` decodes `v` into. */
  function TypeName(v: Value): (name: string)
    ensures name in {"NoneType", "bool", "int", "float", "str", "list", "dict"}
    ensures name == "str" <==> v.JString?
  {
    match v
    case JNull => "NoneType"
    case JBool(_) => "bool"
    case JInt(_) => "int"
    case JFloat(_) => "float"
    case JString(_) => "str"
    case JArray(_) => "list"
    case JObject(_) => "dict"
  }

  /**
   * Python's `v == n` for an int literal `n`: ints and floats compare by
   * numeric value, `True`/`False` compare as 1/0, every other type is unequal.
   */
  predicate EqualsInt(v: Value, n: int) {
    match v
    case JInt(i) => i == n
    case JFloat(r) => r == n as real
    case JBool(b) => (if b then 1 else 0) == n
    case _ => false
  }

  /**
   * Which JSON values compare equal to an int: the same int, the float of the
   * same value, and, for 0 and 1 only, `False` and `True`. A string never does.
   */
  lemma EqualsIntIff(v: Value, n: int)
    ensures EqualsInt(v, n) <==>
      || v == JInt(n)
      || v == JFloat(n as real)
      || (v == JBool(n == 1) && (n == 0 || n == 1))
    ensures forall s :: !EqualsInt(JString(s), n)
  {
  }
}
