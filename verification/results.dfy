/** Failure-compatible result type shared by the script and template models.
    An `Err` stands for an exception the source lets escape (a JavaScript
    TypeError on an `undefined` value), so a caller sees no partial result. */
module Results {

  datatype Result<+T, +E> = Ok(value: T) | Err(error: E) {

    predicate IsFailure() {
      Err?
    }

    function PropagateFailure<U>(): Result<U, E>
      requires Err?
    {
      Err(error)
    }

    function Extract(): T
      requires Ok?
    {
      value
    }
  }

  datatype Option<+T> = None | Some(value: T)
}
