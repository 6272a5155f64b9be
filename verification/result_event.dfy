/** `ResultEvent` and `ResultEvent<TEvent>`: a log event tagged as error or informational, with a
    two-way dispatch on the tag. The two classes differ only in the static type of the event, so
    one generic datatype models both. A delegate is a total function: an `Action` becomes a
    transformer of whatever state the caller threads through it, a `Func` a function to the result. */
module ResultEvents {
  import opened Common

  datatype ResultEvent<E> = ResultEvent(event: E, isError: bool)

  /** `new ResultEvent(event, isError)`: the event is required. */
  function NewResultEvent<E>(event: Option<E>, isError: bool): (r: Result<ResultEvent<E>>)
    ensures event.None? <==> r == Err(ArgumentNull("event"))
    ensures event.Some? ==> r.Ok? && r.value.event == event.value && r.value.isError == isError
  {
    match event
    case None => Err(ArgumentNull("event"))
    case Some(e) => Ok(ResultEvent(e, isError))
  }

  /** The action form of `Operation(onError, onInformational)`: `onError` is checked for null before
      `onInformational`, and nothing runs unless both are present; then exactly the delegate that
      matches the tag runs, once, on this event. */
  function Operation<E, S>(
    e: ResultEvent<E>,
    onError: Option<(ResultEvent<E>, S) -> S>,
    onInformational: Option<(ResultEvent<E>, S) -> S>,
    state: S): (r: Result<S>)
    ensures onError.None? <==> r == Err(ArgumentNull("onError"))
    ensures onError.Some? && onInformational.None? ==> r == Err(ArgumentNull("onInformational"))
    ensures onError.Some? && onInformational.Some? && e.isError ==> r == Ok(onError.value(e, state))
    ensures onError.Some? && onInformational.Some? && !e.isError ==> r == Ok(onInformational.value(e, state))
  {
    if onError.None? then Err(ArgumentNull("onError"))
    else if onInformational.None? then Err(ArgumentNull("onInformational"))
    else if e.isError then Ok(onError.value(e, state))
    else Ok(onInformational.value(e, state))
  }

  /** The value-returning `Operation<T>(onError, onInformational)` of `ResultEvent<TEvent>`: the same
      null checks, then the matching delegate's result. */
  function OperationValue<E, T>(
    e: ResultEvent<E>,
    onError: Option<ResultEvent<E> -> T>,
    onInformational: Option<ResultEvent<E> -> T>): (r: Result<T>)
    ensures onError.None? <==> r == Err(ArgumentNull("onError"))
    ensures onError.Some? && onInformational.None? ==> r == Err(ArgumentNull("onInformational"))
    ensures onError.Some? && onInformational.Some? ==>
      r == Ok(if e.isError then onError.value(e) else onInformational.value(e))
  {
    if onError.None? then Err(ArgumentNull("onError"))
    else if onInformational.None? then Err(ArgumentNull("onInformational"))
    else if e.isError then Ok(onError.value(e))
    else Ok(onInformational.value(e))
  }

  /** The value-returning `Operation<T>` of the non-generic `ResultEvent` as written: its body only
      throws `NotImplementedException`, whatever the delegates. */
  function OperationValueAsWritten<E, T>(
    e: ResultEvent<E>,
    onError: Option<ResultEvent<E> -> T>,
    onInformational: Option<ResultEvent<E> -> T>): (r: Result<T>)
    ensures r == Err(NotImplemented)
  {
    Err(NotImplemented)
  }

  // ---------------------------------------------------------------------------------------------
  // Properties.

  /** Which delegate ran, counted: (error calls, informational calls). */
  function CountError<E>(e: ResultEvent<E>, calls: (nat, nat)): (nat, nat)
  {
    (calls.0 + 1, calls.1)
  }

  function CountInformational<E>(e: ResultEvent<E>, calls: (nat, nat)): (nat, nat)
  {
    (calls.0, calls.1 + 1)
  }

  /** Exactly one delegate runs, and it is `onError` exactly when the event was built as an error. */
  lemma ExactlyOneDelegateRuns<E>(event: E, isError: bool)
    ensures NewResultEvent(Some(event), isError).Ok?
    ensures Operation(NewResultEvent(Some(event), isError).value,
                      Some(CountError), Some(CountInformational), (0, 0))
         == Ok(if isError then (1, 0) else (0, 1))
  {
  }

  /** A missing delegate throws before either runs: the state is never touched. */
  lemma NullDelegateRunsNothing<E, S>(e: ResultEvent<E>, f: (ResultEvent<E>, S) -> S, state: S)
    ensures Operation(e, None, Some(f), state).Err?
    ensures Operation(e, Some(f), None, state).Err?
    ensures Operation(e, None, None, state) == Err(ArgumentNull("onError"))
  {
  }

  /** The value form is the action form with a delegate that ignores the incoming state. */
  lemma OperationValueIsOperation<E, T>(e: ResultEvent<E>, f: ResultEvent<E> -> T, g: ResultEvent<E> -> T, seed: T)
    ensures OperationValue(e, Some(f), Some(g)) == Operation(e, Some((x, _) => f(x)), Some((x, _) => g(x)), seed)
  {
  }

  /** The as-written non-generic overload fails even where the generic one answers. */
  lemma OperationValueAsWrittenNeverAnswers(event: int)
    ensures OperationValue(ResultEvent(event, true), Some((x: ResultEvent<int>) => 1), Some((x: ResultEvent<int>) => 2)) == Ok(1)
    ensures OperationValueAsWritten(ResultEvent(event, true), Some((x: ResultEvent<int>) => 1), Some((x: ResultEvent<int>) => 2)) == Err(NotImplemented)
  {
  }
}
