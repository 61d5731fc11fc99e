/** How operations end that may raise an error. */
module Results {
  /** A value, or an error. */
  datatype Result<+T, +E> = Ok(value: T) | Err(error: E) {
    predicate IsFailure() { Err? }

    function PropagateFailure<U>(): Result<U, E>
      requires IsFailure()
    {
      Err(error)
    }

    function Extract(): T
      requires !IsFailure()
    {
      value
    }
  }

  /** For an operation that changes the state and gives no value. */
  datatype Status = Done | Raised(message: string) {
    predicate IsFailure() { Raised? }

    function PropagateFailure(): Status
      requires IsFailure()
    {
      this
    }
  }
}
