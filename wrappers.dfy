/** Option and Result, and the exceptions of the modelled code as values. */
module Wrappers {

  datatype Option<+T> = None | Some(value: T)

  /** The exceptions the modelled code raises, each named after its cause. */
  datatype Error =
    | KeyNotFound             // a Dictionary indexer given a key that is not present
    | DuplicateKey            // Dictionary.Add given a key that is already present
    | NullReference           // a member used after Dispose set the backing field to null
    | SingletonHasModel       // a second Add on a singleton repository
    | NotFound                // a repository that the store does not hold
    | AlreadyExists           // a second repository for the same value type
    | ParameterCountMismatch  // Delegate.DynamicInvoke given the wrong number of arguments
    | AlreadyLoggedIn         // UserService.LogIn while a user is logged in
    | InvalidName             // UserService.LogIn with a null or white-space name

  /** The outcome of a call that either returns a value or throws. */
  datatype Result<+T> = Success(value: T) | Failure(error: Error) {

    predicate IsFailure() {
      Failure?
    }

    function PropagateFailure<U>(): Result<U>
      requires Failure?
    {
      Failure(error)
    }

    function Extract(): T
      requires Success?
    {
      value
    }
  }
}
