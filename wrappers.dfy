/** Option and Result: the absent value (C# null) and the error path (C# exceptions). */
module Wrappers {

  datatype Option<+T> = None | Some(value: T) {

    predicate IsFailure() { None? }

    function PropagateFailure<U>(): Option<U>
      requires None?
    {
      None
    }

    function Extract(): T
      requires Some?
    {
      value
    }

    function GetOr(default: T): T {
      match this
      case Some(v) => v
      case None => default
    }
  }

  datatype Result<+R, +E> = Success(value: R) | Failure(error: E)

  /** The kinds of failure the modelled services report instead of throwing. */
  datatype Error =
    | ValidationFailed   // ValidationException from ValidateDto or the id check
    | ClientNotFound     // "Client not found."
    | StorageFailure     // the database rejects the change
    | NoCurrentUser      // "Unable to retrieve the current user."
    | DataCorruption     // a stored search criteria blob does not deserialize
}
