/** Shared value types: optional values, the error a request fails with,
    and the JSON values Express hands to the route handlers. */
module Common {

  datatype Option<+T> = None | Some(value: T)

  /** How a request fails: an error raised with `createError(message, status)`,
      a request that a zod schema rejected, or a query that Prisma Client
      refuses before it reaches the database, as it refuses an invalid `Date`
      (the HTTP status of the last two is chosen by the error-handling
      middleware, which is not part of this model). */
  datatype Failure =
    | HttpError(status: int, message: string)
    | ValidationError
    | InvalidQuery

  datatype Result<+T> = Ok(value: T) | Err(failure: Failure)

  /** A JSON value, as found in a parsed request body. */
  datatype Json =
    | JNull
    | JBool(b: bool)
    | JNumber(num: real)
    | JString(str: string)
    | JArray(items: seq<Json>)
    | JObject(fields: map<string, Json>)

  /** The string under `key` of a JSON object; `None` when the value is not an
      object, lacks the key, or holds something else there. */
  function StringField(body: Json, key: string): (r: Option<string>)
    ensures r.Some? <==> body.JObject? && key in body.fields && body.fields[key].JString?
    ensures r.Some? ==> body.fields[key] == JString(r.value)
  {
    if body.JObject? && key in body.fields && body.fields[key].JString? then Some(body.fields[key].str) else None
  }

  function Min(a: int, b: int): int
  {
    if a <= b then a else b
  }
}
