/**
 * What an Express handler or middleware does with a request, as a value.
 *
 * A handler either sends a response (`res.status(s).json({message})`) or lets an
 * exception escape; the handlers modelled here do not catch the errors a failed
 * `save()` throws, so such a request ends as `Unhandled` and the framework, not the
 * handler, decides what the client sees.
 */
module Http {
  datatype Response =
    | Sent(status: nat, message: string)
    | Unhandled(error: string)

  /** A middleware either calls `next()` with what it attached to the request, or answers and stops the chain. */
  datatype Gate<+T> =
    | Next(value: T)
    | Halt(status: nat, message: string)

  const Ok: nat := 200
  const Created: nat := 201
  const BadRequest: nat := 400
  const Unauthorized: nat := 401
  const NotFound: nat := 404
}
