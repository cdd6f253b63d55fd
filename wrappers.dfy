/** Failure-carrying result types shared by every module of the model. */
module Wrappers {

  datatype Option<+T> = None | Some(value: T)

  /** The outcome of an operation of the test runner.
      `Ok` and `Err` are the two arms of a Rust `Result`; `Panic` stands for
      a Rust panic (an `expect`, `unwrap`, `assert!` or `todo!` that fires),
      which aborts the whole test task instead of returning a value. */
  datatype Result<+T, +E> = Ok(value: T) | Err(error: E) | Panic(message: string)
  {
    predicate IsFailure() { !Ok? }

    function PropagateFailure<U>(): Result<U, E>
      requires !Ok?
    {
      if Err? then Err(error) else Panic(message)
    }

    function Extract(): T
      requires Ok?
    {
      value
    }

    /** Maps the error arm, keeping a value or a panic as they are. */
    function MapError<E2>(f: E -> E2): (r: Result<T, E2>)
      ensures Ok? <==> r.Ok?
      ensures Panic? <==> r.Panic?
    {
      match this
      case Ok(v) => Ok(v)
      case Err(e) => Err(f(e))
      case Panic(m) => Panic(m)
    }
  }
}
