/** Values produced by Python's `json.loads`, and the optional result of a decode. */
module Json {

  /** A value that may be absent, such as a query parameter the request does not carry. */
  datatype Option<+T> = None | Some(value: T) {

    /** The value, or `default` when there is none (Python's `dict.get(key, default)`). */
    function GetOr(default: T): T {
      match this
      case Some(v) => v
      case None => default
    }
  }

  /** What a call of `json.loads` does: return a value, raise `json.JSONDecodeError`, or raise
      some other exception (such as `RecursionError` on very deeply nested input). */
  datatype Loaded = Loaded(value: Value) | DecodeError | Raised

  /** A decoded JSON document. Numbers keep their literal text, so no floating point is involved. */
  datatype Value =
    | Null
    | Bool(b: bool)
    | Number(literal: string)
    | Str(s: string)
    | Array(items: seq<Value>)
    | Object(fields: map<string, Value>)
}
