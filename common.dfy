/** Value shapes shared by every part of the model: optional values,
    document identifiers, timestamps and raw bytes. */
module Types {

  datatype Option<T> = None | Some(value: T) {
    /** The value, or the given default when absent (a schema default). */
    function GetOr(default: T): T {
      if Some? then value else default
    }
  }

  /** Identifier of a User document (its ObjectId, as the token carries it). */
  type UserId = string

  /** Identifier of a Product document. */
  type ProductId = string

  /** Milliseconds since the epoch; the clock is a parameter of every
      operation that reads it. */
  type Time = int

  type Bytes = seq<bv8>

  /** A request value JavaScript treats as truthy: present and not the
      empty string. */
  predicate Given(o: Option<string>) {
    o.Some? && o.value != ""
  }
}

/** The HTTP surface of a route handler: the error classes it answers with
    and the reply it sends. */
module Http {

  datatype Error =
    | BadRequest   // 400
    | Forbidden    // 403
    | NotFound     // 404
    | ServerError  // 500: anything thrown inside a handler's try block

  /** What a handler sends: a success status with a body, or an error. */
  datatype Reply<T> = Done(code: int, body: T) | Refused(error: Error)

  /** The outcome of a check that either yields a value or rejects the request. */
  datatype Result<T> = Ok(value: T) | Err(error: Error)
}
