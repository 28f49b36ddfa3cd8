/** Failure-compatible wrapper types shared by every module of the model.
    `Option` stands for a .NET reference that may be null; `Result` for a
    computation that may throw an exception (the exception itself is never
    inspected by the plugin, which only logs it). */
module Wrappers {

  datatype Option<+T> = None | Some(value: T) {

    predicate IsFailure() {
      None?
    }

    function PropagateFailure<U>(): Option<U>
      requires None?
    {
      None
    }

    function Extract(): T
      requires Some?
    {
      value
    }

    /** The C# null-coalescing operator `x ?? d`. */
    function GetOr(default: T): T {
      if Some? then value else default
    }
  }

  datatype Result<+T> = Success(value: T) | Failure {

    predicate IsFailure() {
      Failure?
    }

    function PropagateFailure<U>(): Result<U>
      requires Failure?
    {
      Failure
    }

    function Extract(): T
      requires Success?
    {
      value
    }

    /** A `try`/`catch` that turns the exception into null. */
    function ToOption(): (r: Option<T>)
      ensures r.Some? <==> Success?
      ensures Success? ==> r.value == value
    {
      if Success? then Some(value) else None
    }
  }
}
