/** The older, non-generic `TryResult`: the same accumulator, but its three lists hold the bare log
    events with no error/informational tag, and the flag is called `IsSuccess`. Its value-taking
    `AddResult<T>` copies the sub-result's `Value` whether or not the sub-result succeeded. */
module TryResults {
  import opened Common
  import opened ResultEvents
  import ActionResults

  datatype TryResult<E> = TryResult(isSuccess: bool, allEvents: seq<E>, errors: seq<E>, informationals: seq<E>)

  /** An `ITryResult<T>`: a result together with its `Value` (`None` for `default`). */
  datatype Valued<E, T> = Valued(result: TryResult<E>, value: Option<T>)

  /** The invariant the untagged lists can still express: `AllEvents` holds exactly the errors and
      the informationals, and a successful result holds no errors. */
  ghost predicate Balanced<E>(t: TryResult<E>)
  {
    && multiset(t.allEvents) == multiset(t.errors) + multiset(t.informationals)
    && (t.isSuccess ==> t.errors == [])
  }

  /** `new TryResult(isUnsuccessful)`. */
  function New<E>(isUnsuccessful: bool): (t: TryResult<E>)
    ensures t.isSuccess == !isUnsuccessful
    ensures t.allEvents == [] && t.errors == [] && t.informationals == []
    ensures Balanced(t)
  {
    TryResult(!isUnsuccessful, [], [], [])
  }

  /** `AddError(error)`: null throws; otherwise the result fails and the event is appended to
      `AllEvents` and `Errors`. */
  function AddError<E>(t: TryResult<E>, error: Option<E>): (r: Result<TryResult<E>>)
    ensures error.None? <==> r == Err(ArgumentNull("error"))
    ensures error.Some? ==>
      r == Ok(TryResult(false, t.allEvents + [error.value], t.errors + [error.value], t.informationals))
  {
    match error
    case None => Err(ArgumentNull("error"))
    case Some(e) => Ok(t.(isSuccess := false, allEvents := t.allEvents + [e], errors := t.errors + [e]))
  }

  /** `AddInformational(informational)`: null throws; otherwise the event is appended to
      `AllEvents` and `Informationals` and the flag is untouched. */
  function AddInformational<E>(t: TryResult<E>, informational: Option<E>): (r: Result<TryResult<E>>)
    ensures informational.None? <==> r == Err(ArgumentNull("informational"))
    ensures informational.Some? ==>
      r == Ok(TryResult(t.isSuccess, t.allEvents + [informational.value], t.errors, t.informationals + [informational.value]))
  {
    match informational
    case None => Err(ArgumentNull("informational"))
    case Some(e) => Ok(t.(allEvents := t.allEvents + [e], informationals := t.informationals + [e]))
  }

  /** `AddResult(result)`: null throws; otherwise the three lists are appended as blocks and the
      flags AND-ed. */
  function AddResult<E>(t: TryResult<E>, sub: Option<TryResult<E>>): (r: Result<TryResult<E>>)
    ensures sub.None? <==> r == Err(ArgumentNull("result"))
    ensures sub.Some? ==> r.Ok? && r.value.isSuccess == (t.isSuccess && sub.value.isSuccess)
    ensures sub.Some? ==>
      && r.value.allEvents == t.allEvents + sub.value.allEvents
      && r.value.errors == t.errors + sub.value.errors
      && r.value.informationals == t.informationals + sub.value.informationals
  {
    match sub
    case None => Err(ArgumentNull("result"))
    case Some(s) =>
      Ok(TryResult(t.isSuccess && s.isSuccess, t.allEvents + s.allEvents, t.errors + s.errors,
                   t.informationals + s.informationals))
  }

  /** `AddResult<T>(result, out value)`: as `AddResult`, and the `out` is the sub-result's `Value`,
      taken without looking at its flag. */
  function AddResultWithValue<E, T>(t: TryResult<E>, sub: Option<Valued<E, T>>): (r: Result<(TryResult<E>, Option<T>)>)
    ensures sub.None? <==> r == Err(ArgumentNull("result"))
    ensures sub.Some? ==> r.Ok? && Ok(r.value.0) == AddResult(t, Some(sub.value.result))
    ensures sub.Some? ==> r.value.1 == sub.value.value
  {
    match sub
    case None => Err(ArgumentNull("result"))
    case Some(s) => Ok((AddResult(t, Some(s.result)).value, s.value))
  }

  // ---------------------------------------------------------------------------------------------
  // Relation to the tagged accumulator.

  /** The bare events of a tagged list. */
  function Events<E>(s: seq<ResultEvent<E>>): (r: seq<E>)
    ensures |r| == |s|
    ensures forall i :: 0 <= i < |s| ==> r[i] == s[i].event
  {
    if s == [] then [] else [s[0].event] + Events(s[1..])
  }

  /** Forgetting the tags of an `ActionResult` gives the `TryResult` with the same history. */
  function Erase<E>(a: ActionResults.Accumulator<E>): TryResult<E>
  {
    TryResult(a.success, Events(a.allEvents), Events(a.errors), Events(a.informationals))
  }

  lemma EventsAppend<E>(s: seq<ResultEvent<E>>, t: seq<ResultEvent<E>>)
    ensures Events(s + t) == Events(s) + Events(t)
  {
  }

  /** Each operation on the tagged accumulator, seen through `Erase`, is the same operation on the
      untagged one. */
  lemma EraseCommutes<E>(a: ActionResults.Accumulator<E>, e: E, sub: ActionResults.Accumulator<E>)
    ensures Erase(ActionResults.New<E>(false)) == New(false)
    ensures Ok(Erase(ActionResults.AddError(a, Some(e)).value)) == AddError(Erase(a), Some(e))
    ensures Ok(Erase(ActionResults.AddInformational(a, Some(e)).value)) == AddInformational(Erase(a), Some(e))
    ensures Ok(Erase(ActionResults.AddResult(a, Some(sub), ActionResults.All).value)) == AddResult(Erase(a), Some(Erase(sub)))
  {
    assert Events([ResultEvent(e, true)]) == [e];
    assert Events([ResultEvent(e, false)]) == [e];
    EventsAppend(a.allEvents, [ResultEvent(e, true)]);
    EventsAppend(a.errors, [ResultEvent(e, true)]);
    EventsAppend(a.allEvents, [ResultEvent(e, false)]);
    EventsAppend(a.informationals, [ResultEvent(e, false)]);
    EventsAppend(a.allEvents, sub.allEvents);
    EventsAppend(a.errors, sub.errors);
    EventsAppend(a.informationals, sub.informationals);
  }

  lemma {:induction false} SplitByTag<E>(s: seq<ResultEvent<E>>)
    ensures multiset(Events(s)) ==
      multiset(Events(ActionResults.ErrorsOf(s))) + multiset(Events(ActionResults.InformationalsOf(s)))
  {
    if s != [] {
      SplitByTag(s[1..]);
      assert Events(s) == [s[0].event] + Events(s[1..]);
      if s[0].isError {
        assert Events(ActionResults.ErrorsOf(s)) == [s[0].event] + Events(ActionResults.ErrorsOf(s[1..]));
      } else {
        assert Events(ActionResults.InformationalsOf(s)) == [s[0].event] + Events(ActionResults.InformationalsOf(s[1..]));
      }
    }
  }

  /** A consistent tagged result erases to a balanced untagged one. */
  lemma ErasedConsistentIsBalanced<E>(a: ActionResults.Accumulator<E>)
    requires ActionResults.Consistent(a)
    ensures Balanced(Erase(a))
  {
    SplitByTag(a.allEvents);
  }

  /** Every operation keeps a balanced result balanced. */
  lemma OperationsKeepBalanced<E, T>(t: TryResult<E>, e: Option<E>, sub: Option<Valued<E, T>>)
    requires Balanced(t) && (sub.Some? ==> Balanced(sub.value.result))
    ensures AddError(t, e).Ok? ==> Balanced(AddError(t, e).value)
    ensures AddInformational(t, e).Ok? ==> Balanced(AddInformational(t, e).value)
    ensures AddResultWithValue(t, sub).Ok? ==> Balanced(AddResultWithValue(t, sub).value.0)
    ensures AddResultWithValue(t, sub).Ok? ==> AddResultWithValue(t, sub).value.0.isSuccess ==> t.isSuccess
  {
  }

  /** The value is copied even from a failed sub-result, which the tagged `AddResult<T>` would not
      report when the sub-result holds no value. */
  lemma ValueCopiedFromFailedSubResult<E>(t: TryResult<E>, v: int)
    ensures AddResultWithValue(t, Some(Valued(New<E>(true), Some(v)))).Ok?
    ensures AddResultWithValue(t, Some(Valued(New<E>(true), Some(v)))).value.1 == Some(v)
    ensures !AddResultWithValue(t, Some(Valued(New<E>(true), Some(v)))).value.0.isSuccess
  {
  }
}
