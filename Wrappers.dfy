/** Option and Result, the shapes the source's `null`/`undefined` returns and
    thrown exceptions take in this model. */
module Wrappers {

  datatype Option<+T> = None | Some(value: T)

  datatype Result<+T, +E> = Ok(value: T) | Err(error: E)
}

/** The errors the modelled code raises or lets through. */
module Failures {

  datatype Failure =
    | Unauthorized(message: string)   // UnauthorizedException (HTTP 401)
    | Conflict(message: string)       // ConflictException (HTTP 409)
    | UniqueViolation(field: string)  // the store refuses a second row with the same unique key
    | RecordNotFound                  // the store refuses to delete a row that does not exist

  /** The `message` an error carries when it is logged. */
  function Message(f: Failure): string
  {
    match f
    case Unauthorized(m) => m
    case Conflict(m) => m
    case UniqueViolation(field) => "Unique constraint failed on the fields: (" + field + ")"
    case RecordNotFound => "Record to delete does not exist."
  }
}

/** JSON values as they arrive in request bodies and webhook payloads
    (numbers are modelled as integers). */
module Json {
  import opened Wrappers

  datatype Json =
    | JNull
    | JBool(b: bool)
    | JNum(n: int)
    | JStr(s: string)
    | JArr(items: seq<Json>)
    | JObj(fields: map<string, Json>)

  /** The value of `key` in a request body; `None` is JavaScript's `undefined`. */
  function Field(body: map<string, Json>, key: string): (r: Option<Json>)
    ensures r.Some? <==> key in body
    ensures r.Some? ==> r.value == body[key]
  {
    if key in body then Some(body[key]) else None
  }

  /** class-validator's `@IsNotEmpty()`: anything but '', null and undefined. */
  predicate IsNotEmpty(v: Option<Json>)
  {
    v.Some? && v.value != JNull && v.value != JStr("")
  }

  /** `@IsString()` together with `@IsNotEmpty()`. */
  predicate IsNonEmptyString(v: Option<Json>)
  {
    IsNotEmpty(v) && v.value.JStr?
  }

  /** The string a body field holds, when `IsNonEmptyString` admits it. */
  function StringField(body: map<string, Json>, key: string): (r: Option<string>)
    ensures r.Some? <==> IsNonEmptyString(Field(body, key))
    ensures r.Some? ==> r.value != "" && body[key] == JStr(r.value)
  {
    if key in body && body[key].JStr? && body[key].s != "" then Some(body[key].s) else None
  }
}
