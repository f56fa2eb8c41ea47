/** Rust's `Result<T, E>`, usable with Dafny's `:-` operator (the `?` operator of the source). */
module Results {

  /**
   * `std::convert::Infallible`, the error type of operations that cannot
   * fail. Dafny has no empty datatypes, so it has one value; the contracts
   * of the infallible operations state that it is never returned.
   */
  datatype Infallible = Infallible

  datatype Result<+T, +E> = Ok(value: T) | Err(error: E) {

    predicate IsFailure() {
      Err?
    }

    function PropagateFailure<U>(): Result<U, E>
      requires Err?
    {
      Err(error)
    }

    function Extract(): T
      requires Ok?
    {
      value
    }

    /** `Result::map_err`: rewrites the error, keeps a success value. */
    function MapErr<E2>(f: E -> E2): (r: Result<T, E2>)
      ensures r.Ok? <==> Ok?
      ensures Ok? ==> r.value == value
      ensures Err? ==> r.error == f(error)
    {
      match this
      case Ok(v) => Ok(v)
      case Err(e) => Err(f(e))
    }
  }
}
