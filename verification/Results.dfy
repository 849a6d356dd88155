module Results {

  datatype Option<+T> = None | Some(value: T)

  datatype Result<+T, +E> = Ok(value: T) | Refused(why: E) {

    predicate IsFailure() {
      Refused?
    }

    function PropagateFailure<U>(): Result<U, E>
      requires Refused?
    {
      Refused(why)
    }

    function Extract(): T
      requires Ok?
    {
      value
    }
  }
}
