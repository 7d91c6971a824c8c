/** Requests and responses of the Next.js route handlers under app/src/app/api/. */
module Api {
  import opened Js
  import opened Db

  /** What `await request.json()` and the destructuring after it yield: the
      body's own properties, or the error thrown when the body is not JSON or is
      JSON `null`. */
  datatype RequestBody = Json(fields: map<string, Value>) | Malformed(message: string)

  /** A destructured property: `undefined` when the body does not have it. */
  function Field(fields: map<string, Value>, key: string): Value {
    if key in fields then fields[key] else Undefined
  }

  /** `searchParams.get(key)`: `null` when the query has no such parameter. */
  function Param(query: map<string, string>, key: string): Option<string> {
    if key in query then Some(query[key]) else None
  }

  /** A query parameter that is truthy: present and not empty. */
  predicate Given(p: Option<string>) {
    p.Some? && p.value != ""
  }

  /** The JSON bodies the handlers answer with. */
  datatype Body =
    | Error(error: string)
    | Done                             // { success: true }
    | Created(id: nat)                 // { success: true, id }
    | RequestCreated(requestId: nat)   // { success: true, requestId }
    | Spots(spots: seq<SpotRow>)
    | Spot(spot: Option<SpotRow>)
    | Users(users: seq<UserRow>)
    | Requests(requests: seq<RequestView>)

  datatype Response = Response(status: int, body: Body)

  /** `NextResponse.json(body)`: status 200. */
  function Ok(body: Body): Response {
    Response(200, body)
  }

  /** `NextResponse.json({ error: message }, { status })` */
  function Fail(status: int, message: string): Response {
    Response(status, Error(message))
  }

  /** The outcome of a handler's validation: the arguments of its store call, or
      the response it returns without touching the store. */
  datatype Checked<T> = Accept(value: T) | Reject(response: Response)
}
