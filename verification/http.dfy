/** What the two routes share: the JSON responses they send, the request body
    as `req.json()` yields it, and the caller as `getAuth` reports it. */
module Http {
  import opened Wrappers
  import opened Ledger

  datatype Payload =
    | Success                          // {success: true}
    | SuccessWithCredits(credits: int) // {success: true, credits}
    | CreditsBody(credits: int)        // {credits}
    | ErrorBody(message: string)       // {error: message}

  datatype Response = Response(status: int, payload: Payload)

  const OkSuccess := Response(200, Success)
  const Unauthorized := Response(401, ErrorBody("Unauthorized"))

  function BadRequest(message: string): Response
  {
    Response(400, ErrorBody(message))
  }

  function ServerError(message: string): Response
  {
    Response(500, ErrorBody(message))
  }

  /** `await req.json()` and the destructuring of its result: a body that is not
      JSON, or is JSON `null`, makes them throw. Any other JSON value yields the
      field, `undefined` when the value has no such property. */
  datatype JsonBody<T> = Unparsable | Parsed(field: T)

  /** The authenticated caller: `getAuth(req).userId` when it is truthy, so both
      null and the empty string mean "not signed in". */
  function Caller(auth: Option<string>): Option<UserId>
  {
    if auth.Some? && auth.value != "" then auth else None
  }

  /** What a request produces: the response, the store afterwards and the calls made. */
  datatype Outcome = Outcome(response: Response, store: Store, calls: seq<Call>)
}
