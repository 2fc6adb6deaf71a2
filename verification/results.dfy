/** Optional values and error results shared by every module.

    The C code signals "nothing found" with NULL and reports errors by
    printing and calling `exit(1)` (or, in the collision loader, by running
    into undefined behaviour).  The model returns these outcomes as values. */
module Results {

  datatype Option<+T> = None | Some(value: T)

  datatype Result<+T, +E> = Ok(value: T) | Err(error: E) {

    predicate IsFailure() {
      Err?
    }

    function PropagateFailure<U>(): Result<U, E>
      requires Err?
    {
      Err(error)
    }

    function Extract(): T
      requires Ok?
    {
      value
    }
  }
}
