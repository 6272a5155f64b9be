/** Shared vocabulary of the model: optional values (a C# reference that may be null, or an
    out-parameter that may hold `default`) and the failures the library raises as exceptions. */
module Common {

  /** `None` stands for a null reference at an API boundary, or for the `default` value of a slot. */
  datatype Option<+T> = None | Some(value: T) {

    /** The value, or `fallback` when absent (the C# `??` operator). */
    function OrElse(fallback: T): T
    {
      match this
      case Some(v) => v
      case None => fallback
    }
  }

  /** `a ?? b` on two nullable values. */
  function Coalesce<T>(a: Option<T>, b: Option<T>): (r: Option<T>)
    ensures a.Some? ==> r == a
    ensures a.None? ==> r == b
  {
    if a.Some? then a else b
  }

  /** The exceptions the modelled code throws, with the parameter name it reports. */
  datatype Failure =
    | ArgumentNull(paramName: string)
    | Argument(paramName: string, message: string)
    | ArgumentOutOfRange(paramName: string)
    | InvalidOperation(message: string)
    | KeyNotFound
    | NotImplemented

  /** The outcome of a call that may throw. */
  datatype Result<+T> = Ok(value: T) | Err(failure: Failure) {

    predicate IsFailure()
    {
      Err?
    }

    function PropagateFailure<U>(): Result<U>
      requires Err?
    {
      Err(failure)
    }

    function Extract(): T
      requires Ok?
    {
      value
    }
  }
}
