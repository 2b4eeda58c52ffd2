/** What a route handler answers: the JSON body of a successful request,
    or an error status with the `{ error }` message. */
module Responses {
  import opened Query

  datatype Response<+T> = Ok(body: T) | Fail(status: int, error: string)

  /** A request the schema rejects (`ZodError`). */
  const BadRequest := 400

  /** Any other failure, such as an error reported by the store. */
  const ServerError := 500

  /** The `{ error }` text of any other failure:
      `err instanceof Error ? err.message : "Bad request"`. */
  function CaughtMessage(err: Thrown): (m: string)
    ensures err.ErrorInstance? ==> m == err.message
    ensures err.OtherValue? ==> m == "Bad request"
  {
    if err.ErrorInstance? then err.message else "Bad request"
  }
}
