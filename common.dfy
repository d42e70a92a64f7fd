/** Shared vocabulary of the model: record identities, times, optional values
    and the outcome of a route handler. */
module Common {

  /** A record identity (a Mongo ObjectId). Only compared for equality; the
      store hands out fresh ones from a counter. */
  type Id = nat

  /** A point in time, in milliseconds since the epoch (JavaScript `Date`). */
  type Time = int

  datatype Option<+T> = None | Some(value: T)

  /** The HTTP error statuses the handlers answer with. `ServerError` is the
      500 answer every handler gives when its body throws (a Mongoose
      validation error on save, or a TypeError on a missing field). */
  datatype Error = BadRequest | NotFound | Forbidden | ServerError

  /** What a route handler answers: a payload, or one of the error statuses. */
  datatype Result<+T> = Ok(value: T) | Err(error: Error)

  /** What saving a record through its schema gives: the stored record, or
      the reason Mongoose's validation refused it. */
  datatype Checked<+T, +E> = Saved(record: T) | Invalid(reason: E)

  /** A handler outcome that carries no payload. */
  datatype Outcome = Done | Fail(error: Error)
}
