/** The values `json.loads` produces and the host hands around, and the
    JSON text codec, which the host takes from Python's library and which
    the model keeps abstract. */
module Json {
  import opened Bytes

  datatype Option<+T> = None | Some(value: T)

  /** A decoded JSON value as Python holds it, except that a string here
      holds Unicode scalar values only: the lone surrogates a `\uD8xx`
      escape gives a Python `str` have no counterpart. Numbers keep the
      split `json.loads` makes between `int` (no fraction or exponent) and
      `float`. */
  datatype Json =
    | JNull
    | JBool(b: bool)
    | JInt(i: int)
    | JFloat(f: real)
    | JStr(s: string)
    | JArr(items: seq<Json>)
    | JObj(fields: map<string, Json>)

  /** Python truthiness of a decoded value: what `if not url` tests. */
  predicate Truthy(v: Json)
  {
    match v
    case JNull => false
    case JBool(b) => b
    case JInt(i) => i != 0
    case JFloat(f) => f != 0.0
    case JStr(s) => s != []
    case JArr(items) => items != []
    case JObj(fields) => fields != map[]
  }

  /** `type(v).__name__` for the object `json.loads` builds for `v`. */
  function TypeName(v: Json): string
  {
    match v
    case JNull => "NoneType"
    case JBool(_) => "bool"
    case JInt(_) => "int"
    case JFloat(_) => "float"
    case JStr(_) => "str"
    case JArr(_) => "list"
    case JObj(_) => "dict"
  }

  /** `d.get(key)`: the value stored under `key`, or None when it is absent. */
  function Get(fields: map<string, Json>, key: string): Json
  {
    if key in fields then fields[key] else JNull
  }

  /** The library half of the framing: `json.dumps(m, ensure_ascii=False)`
      followed by UTF-8 encoding (None when either raises), and UTF-8
      decoding followed by `json.loads` (None when either raises). */
  datatype Codec = Codec(dumps: Json -> Option<seq<byte>>, loads: seq<byte> -> Option<Json>)

  /** The one assumption made about the library: decoding what it encoded
      gives back the value that was encoded. */
  ghost predicate Sound(c: Codec)
  {
    forall v :: c.dumps(v).Some? ==> c.loads(c.dumps(v).value) == Some(v)
  }
}
