/** Shared vocabulary of the two route files: request-body fields with
    JavaScript falsiness, the JSON response every handler sends, and the
    fixed status codes and messages the handlers use. */
module Api {

  datatype Option<+T> = None | Some(value: T)

  /** The id that the token middleware attaches to the request as req.userId. */
  type UserId = nat

  /** A string field of req.body is falsy (`!field`) when it is absent or empty. */
  predicate Missing(field: Option<string>)
  {
    field.None? || field.value == ""
  }

  /** `field || fallback`: the field when it is truthy, the fallback otherwise. */
  function OrElse(field: Option<string>, fallback: string): (r: string)
    ensures Missing(field) ==> r == fallback
    ensures !Missing(field) ==> Some(r) == field && r != ""
  {
    if Missing(field) then fallback else field.value
  }

  /** What `res.status(code).json({...})` sends: the status code, the
      `success` flag, an optional `message` and an optional payload
      (`post`, `posts` or `acccessToken`). */
  datatype Response<+P> = Response(status: nat, success: bool, message: Option<string>, payload: Option<P>)

  const ServerErrorMessage := "Server error"

  /** The catch-all answer of every handler's `catch` block. */
  function ServerError<P>(): Response<P>
  {
    Response(500, false, Some(ServerErrorMessage), None)
  }

  /** A 400 or 401 answer with only a message. */
  function Rejected<P>(status: nat, message: string): Response<P>
  {
    Response(status, false, Some(message), None)
  }

  /** `res.json({ success: true, message, ... })`: Express's default status 200. */
  function Accepted<P>(message: string, payload: P): Response<P>
  {
    Response(200, true, Some(message), Some(payload))
  }
}
