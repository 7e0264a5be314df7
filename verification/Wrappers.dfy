/** The two failure-compatible types that the other modules share. */
module Wrappers {

  /** An optional value (`std::optional`). */
  datatype Option<+T> = None | Some(value: T) {
    function GetOr(default: T): T {
      match this
      case None => default
      case Some(v) => v
    }
  }

  /**
   * The result of code that may throw. Every exception of the modelled code derives from
   * `std::exception`; it is known by its `what()`.
   */
  datatype Result<+T> = Ok(value: T) | Thrown(what: string) {
    predicate IsFailure() {
      Thrown?
    }

    function PropagateFailure<U>(): Result<U>
      requires Thrown?
    {
      Thrown(what)
    }

    function Extract(): T
      requires Ok?
    {
      value
    }
  }
}
