/**
 * The PHP values the client exchanges with the server: what `json_decode`
 * yields, PHP truthiness, string conversion and `??` lookups, and the
 * foreign functions that encode and decode them.
 */
module PhpValues {
  import opened Wrappers
  import Strings

  /**
   * A decoded JSON document. JSON numbers are integers here; a JSON
   * object is a PHP associative array (or a `stdClass`).
   */
  datatype JValue =
    | JNull
    | JBool(b: bool)
    | JInt(i: int)
    | JStr(s: string)
    | JArr(items: seq<JValue>)
    | JObj(fields: map<string, JValue>)

  /** A PHP array with string keys, in insertion order, as a request body. */
  type Payload = seq<(string, JValue)>

  /**
   * The PHP library functions the client calls but does not implement:
   * `http_build_query`, `json_encode` and `json_decode` (which yields
   * null for text that is not JSON). Their byte-level behaviour is not
   * part of this model, so they are parameters.
   */
  datatype Codecs = Codecs(
    buildQuery: Payload -> string,
    jsonEncode: Payload -> string,
    jsonDecode: string -> JValue)

  /**
   * PHP truthiness. A JSON object read by `json_decode` without the
   * associative flag is a `stdClass`, and every object is truthy.
   */
  predicate Truthy(v: JValue)
  {
    match v
    case JNull => false
    case JBool(b) => b
    case JInt(i) => i != 0
    case JStr(s) => s != "" && s != "0"
    case JArr(items) => items != []
    case JObj(_) => true
  }

  /** PHP `empty($s)` for a string: the empty string and "0". */
  predicate EmptyString(s: string)
  {
    s == "" || s == "0"
  }

  /**
   * PHP string conversion of a truthy scalar (`$buffer .= $v`); an array
   * converts to "Array". An object cannot be converted (PHP throws); it
   * yields "" here.
   */
  function ToPhpString(v: JValue): string
  {
    match v
    case JNull => ""
    case JBool(b) => if b then "1" else ""
    case JInt(i) => Strings.IntToString(i)
    case JStr(s) => s
    case JArr(_) => "Array"
    case JObj(_) => ""
  }

  /** `$v['key'] ?? null` and `$v->key ?? null`: a present, non-null member of an object. */
  function Member(v: JValue, key: string): Option<JValue>
  {
    if v.JObj? && key in v.fields && v.fields[key] != JNull then Some(v.fields[key]) else None
  }

  /** `$v['key'] ?? $default` read into a string property. */
  function StringOr(v: JValue, key: string, default: string): string
  {
    match Member(v, key)
    case Some(JStr(s)) => s
    case _ => default
  }

  /** `$v['key'] ?? $default` read into an int property. */
  function IntOr(v: JValue, key: string, default: int): int
  {
    match Member(v, key)
    case Some(JInt(i)) => i
    case _ => default
  }

  /** `$v['key'] ?? $default` read into a bool property. */
  function BoolOr(v: JValue, key: string, default: bool): bool
  {
    match Member(v, key)
    case Some(JBool(b)) => b
    case _ => default
  }

  /** `$v['key'] ?? []` read into an array property (a JSON list). */
  function ListOr(v: JValue, key: string): seq<JValue>
  {
    match Member(v, key)
    case Some(JArr(items)) => items
    case _ => []
  }
}
