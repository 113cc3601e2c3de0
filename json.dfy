/**
 * Decoded JSON values as Python's `json` module hands them to the crawler,
 * and the response texts that carry them.
 *
 * Serialisation itself is not modelled: a text is either `Wellformed(v)`, some
 * JSON text that `json.loads` turns into `v` (this is what `json.dumps(v)`
 * produces), or `Malformed(raw)`, a string that `json.loads` rejects.
 */
module Json {
  import opened Optional

  /** A decoded value: objects are dicts, integral numbers are ints, other numbers floats. */
  datatype Json =
    | JNull
    | JBool(b: bool)
    | JInt(i: int)
    | JFloat(r: real)
    | JString(s: string)
    | JArray(elems: seq<Json>)
    | JObject(fields: map<string, Json>)

  datatype Text = Wellformed(value: Json) | Malformed(raw: string)

  /** `json.dumps(v)` */
  function Dumps(v: Json): (t: Text)
    ensures Loads(t) == Some(v)
  {
    Wellformed(v)
  }

  /** `json.loads(t)`; `None` stands for `json.JSONDecodeError`. */
  function Loads(t: Text): Option<Json>
  {
    match t
    case Wellformed(v) => Some(v)
    case Malformed(_) => None
  }

  /** Python truthiness of a decoded value: `None`, `False`, zero and empty containers are falsy. */
  predicate Truthy(v: Json)
  {
    match v
    case JNull => false
    case JBool(b) => b
    case JInt(i) => i != 0
    case JFloat(r) => r != 0.0
    case JString(s) => s != []
    case JArray(xs) => xs != []
    case JObject(m) => m != map[]
  }

  /**
   * Python truthiness of a response text: a string is truthy when it is not
   * empty, and the output of `json.dumps` never is.
   */
  predicate TextTruthy(t: Text)
  {
    match t
    case Wellformed(_) => true
    case Malformed(raw) => raw != []
  }

  /** `d.get(k)`: a missing key and a JSON `null` both read as `None`. */
  function Get(d: map<string, Json>, k: string): Json
  {
    if k in d then d[k] else JNull
  }

  /** `d.get(k, default)` */
  function GetOr(d: map<string, Json>, k: string, default: Json): Json
  {
    if k in d then d[k] else default
  }
}
