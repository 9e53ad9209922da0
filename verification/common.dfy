/** Values shared by every part of the model: optional values, the error
    classes a request can end in, and the decoded JSON values that the
    service manager and the journal hand back. */
module Common {

  datatype Option<+T> = None | Some(value: T)

  /** Why a request produced no answer.
      The first three are the validation failures that the server reports as
      client errors (ValueError); ToolFailed is a command that exited non-zero
      or timed out (RuntimeError); MalformedOutput is a timer listing that is
      not JSON; DateOutOfRange is a time `ms_to_iso` cannot render (the
      ValueError or OverflowError of `datetime.fromtimestamp`); Unexpected is
      an uncaught Python exception raised by a JSON value of an unexpected
      shape (a TypeError or AttributeError). */
  datatype Error =
    | InvalidUnit
    | InvalidLimit
    | InvalidInvocation
    | ToolFailed(message: string)
    | MalformedOutput
    | DateOutOfRange
    | Unexpected

  datatype Result<+T> = Ok(value: T) | Err(error: Error)

  /** A decoded JSON value. Floating-point numbers are not modelled. */
  datatype Json =
    | JNull
    | JBool(b: bool)
    | JInt(i: int)
    | JStr(s: string)
    | JArray(items: seq<Json>)
    | JObject(members: map<string, Json>)

  /** Python truthiness of a decoded JSON value. */
  predicate Truthy(v: Json)
  {
    match v
    case JNull => false
    case JBool(b) => b
    case JInt(i) => i != 0
    case JStr(s) => s != []
    case JArray(items) => items != []
    case JObject(members) => members != map[]
  }

  /** `d.get(key)` on a decoded JSON object: a missing key reads as null. */
  function Get(d: map<string, Json>, key: string): Json
  {
    if key in d then d[key] else JNull
  }
}
