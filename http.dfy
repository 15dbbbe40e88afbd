/**
 * What a handler ends with: a response it sends, or a failure it hands to
 * `next`. The application's error-handling middleware is not part of this
 * model, so only an ErrorResponse carries an HTTP status of its own.
 */
module Http {
  import opened Wrappers
  import Paging

  /** Record ids (Mongo ObjectIds), compared by value. */
  type Id = nat

  datatype Failure =
    | ErrorResponse(status: nat, message: string)  // new ErrorResponse(message, status)
    | TypeError(message: string)                    // a property read on undefined or null, or a missing method
    | ReferenceError(name: string)                  // an undeclared identifier
    | SyntaxError                                   // JSON.parse rejected its input
    | ValidationError(paths: set<string>)           // Mongoose validation: the paths that failed
    | DuplicateKey(index: string)                   // a unique index refused the write

  /** The list envelope `{success, count, pagination?, data}`; a missing `pagination` key is None. */
  datatype Envelope<D> = Envelope(success: bool, count: nat, pagination: Option<Paging.Pagination>, data: seq<D>)

  /** The JSON body of a successful response. */
  datatype Body<D> =
    | Data(data: D)                 // {success: true, data}
    | NoData                        // {success: true, data: {}}
    | Listing(envelope: Envelope<D>)
    | Token(token: string)          // {success: true, token}
    | Undefined                     // res.json(undefined)

  /**
   * How a request ends: a response, a failure handed to `next`, or a
   * failure thrown where nothing passes it to `next`: an `async` middleware
   * without `asyncHandler` rejects its promise, Express ignores it, and the
   * process's `unhandledRejection` handler closes the server.
   */
  datatype Reply<D> = Sent(status: nat, body: Body<D>) | Next(failure: Failure) | Unhandled(failure: Failure)

  /** The envelope of a plain list: every item, its length, and no `pagination` key. */
  function PlainListing<D>(items: seq<D>): (e: Envelope<D>)
    ensures e.success && e.count == |e.data| && e.data == items && e.pagination.None?
  {
    Envelope(true, |items|, None, items)
  }
}
