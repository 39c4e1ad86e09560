/** Failure-compatible wrappers shared by every stage of the pipeline.
    An exception raised by a stage is modelled by `Err` carrying the text
    that `str(e)` renders for it. */
module Results {

  datatype Option<+T> = None | Some(value: T)

  datatype Result<+T> = Ok(value: T) | Err(error: string) {

    predicate IsFailure() {
      Err?
    }

    function PropagateFailure<U>(): Result<U>
      requires Err?
    {
      Err(error)
    }

    function Extract(): T
      requires Ok?
    {
      value
    }
  }
}
