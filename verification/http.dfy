/** What a route handler answers with. */
module Http {

  /** The error statuses the handlers send; success is 200 with a JSON body. */
  datatype Status =
    | BadRequest    // 400
    | Unauthorized  // 401
    | ServerError   // 500

  /** `Ok(body)` is a 200 answer carrying `body` as JSON; `Err` carries the status
      and the messages of the error body (one per failed validation check). */
  datatype Response<+T> = Ok(body: T) | Err(status: Status, errors: seq<string>)

  /** The text the article routes send with a 500 after catching a thrown error. */
  const ServerErrorText := "Server Error"
}
