/** Small value wrappers shared by the whole model. */
module Outcomes {

  /** A value that may be absent: `null` in a nullable column, a missing row, an omitted optional input. */
  datatype Option<+T> = None | Some(value: T)

  /** The outcome of an action that either returns a value or throws an error. */
  datatype Result<+T, +E> = Success(value: T) | Failure(error: E)

  /**
   * A column in a partial update. An `Omitted` field is `undefined` in the object given to
   * `.set(...)`, so the column keeps its value; a `Supplied` field overwrites it.
   */
  datatype Patch<+T> = Omitted | Supplied(value: T) {
    function ApplyTo(current: T): T {
      match this
      case Omitted => current
      case Supplied(v) => v
    }
  }

  /** An optional input field, forwarded to a partial update: absent becomes omitted. */
  function ToPatch<T>(field: Option<T>): Patch<T> {
    match field
    case None => Omitted
    case Some(v) => Supplied(v)
  }
}
