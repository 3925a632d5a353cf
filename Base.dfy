/** Option and Result wrappers shared by the other modules.
    `None` stands for Python's `None`; `Failure` for an exception the
    Python code lets escape. */
module Base {

  datatype Option<+T> = None | Some(value: T)

  datatype Result<+T, +E> = Success(value: T) | Failure(error: E) {

    predicate IsFailure() {
      Failure?
    }

    function PropagateFailure<U>(): Result<U, E>
      requires Failure?
    {
      Failure(error)
    }

    function Extract(): T
      requires Success?
    {
      value
    }
  }

  /** Python truthiness of an optional number: present and non-zero. */
  predicate NonZero(x: Option<real>) {
    x.Some? && x.value != 0.0
  }
}
