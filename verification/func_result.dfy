/** `FuncResult<TValue>` and `FuncResult<TEvent, TValue>`: an `ActionResult` that also owns a
    `ValueContainer`. Event operations go to the accumulator, value operations to the container, and
    neither touches the other's half. The value operations are stated over the corrected
    container (`ValueContainers.RemoveValue`, `ValueContainers.TryAddValue`); as written they
    inherit its bugs. The `AddResult` overloads here take no categories, so they absorb
    everything. */
module FuncResults {
  import opened Common
  import opened ActionResults
  import VC = ValueContainers

  /** What a value operation hands back: its return value, its `out` argument, and the result. */
  datatype ValueReply<E, V> = ValueReply(returned: bool, out: Option<V>, after: Carrier<E, V>)

  /** The state every `FuncResult` is in: consistent events and a container with no stale value. */
  ghost predicate Valid<E, V>(f: Carrier<E, V>)
  {
    Consistent(f.events) && VC.Clean(f.cell)
  }

  /** `new FuncResult(isUnsuccessful)`. */
  function New<E, V>(isUnsuccessful: bool): (f: Carrier<E, V>)
    ensures f.events.success == !isUnsuccessful
    ensures f.events.allEvents == [] && f.events.errors == [] && f.events.informationals == []
    ensures VC.Get(f.cell) == VC.Read(false, None)
    ensures Valid(f)
  {
    Carrier(ActionResults.New(isUnsuccessful), VC.New())
  }

  /** `AddError`: the accumulator's `AddError`; the value is untouched and the same result returned. */
  function AddError<E, V>(f: Carrier<E, V>, error: Option<E>): (r: Result<Carrier<E, V>>)
    ensures r.Err? <==> ActionResults.AddError(f.events, error).Err?
    ensures r.Err? ==> r.failure == ArgumentNull("error")
    ensures r.Ok? ==> Ok(r.value.events) == ActionResults.AddError(f.events, error) && r.value.cell == f.cell
  {
    var events :- ActionResults.AddError(f.events, error);
    Ok(f.(events := events))
  }

  /** `AddInformational`, likewise. */
  function AddInformational<E, V>(f: Carrier<E, V>, informational: Option<E>): (r: Result<Carrier<E, V>>)
    ensures r.Err? <==> ActionResults.AddInformational(f.events, informational).Err?
    ensures r.Err? ==> r.failure == ArgumentNull("informational")
    ensures r.Ok? ==>
      Ok(r.value.events) == ActionResults.AddInformational(f.events, informational) && r.value.cell == f.cell
  {
    var events :- ActionResults.AddInformational(f.events, informational);
    Ok(f.(events := events))
  }

  /** `AddResult(result)`: the accumulator's `AddResult` with every category. */
  function AddResult<E, V>(f: Carrier<E, V>, sub: Option<Accumulator<E>>): (r: Result<Carrier<E, V>>)
    ensures sub.None? <==> r == Err(ArgumentNull("result"))
    ensures r.Ok? ==> Ok(r.value.events) == ActionResults.AddResult(f.events, sub, All) && r.value.cell == f.cell
  {
    var events :- ActionResults.AddResult(f.events, sub, All);
    Ok(f.(events := events))
  }

  /** `AddResult<T>(result, out value)`: as `AddResult`, with the sub-result's value (or `default`)
      handed back. */
  function AddResultWithValue<E, V, W>(f: Carrier<E, V>, sub: Option<Carrier<E, W>>)
    : (r: Result<(Carrier<E, V>, Option<W>)>)
    ensures sub.None? <==> r == Err(ArgumentNull("result"))
    ensures r.Ok? ==>
      && Ok(r.value.0.events) == ActionResults.AddResult(f.events, Some(sub.value.events), All)
      && r.value.0.cell == f.cell
      && r.value.1 == VC.Get(sub.value.cell).out
  {
    var w :- ActionResults.AddResultWithValue(f.events, sub, All);
    Ok((f.(events := w.result), w.out))
  }

  /** `GetValue(out value)`. */
  function GetValue<E, V>(f: Carrier<E, V>): (r: VC.Read<V>)
    ensures r.found == f.cell.hasValue
    ensures r.found ==> r.out == f.cell.value
    ensures !r.found ==> r.out == None
  {
    VC.Get(f.cell)
  }

  /** `RemoveValue(out value)`, over the corrected container. The `out`-less overload forwards to
      one the container class never defines. */
  function RemoveValue<E, V>(f: Carrier<E, V>): (r: ValueReply<E, V>)
    requires VC.Clean(f.cell)
    ensures r.returned == f.cell.hasValue && r.out == f.cell.value
    ensures r.after.events == f.events && GetValue(r.after) == VC.Read(false, None)
  {
    var reply := VC.RemoveValue(f.cell);
    ValueReply(reply.returned, reply.out, f.(cell := reply.after))
  }

  /** `SetValue(newValue, out oldValue)`. The `out`-less overload forwards to one the container
      class never defines. */
  function SetValue<E, V>(f: Carrier<E, V>, newValue: V): (r: ValueReply<E, V>)
    ensures r.returned == f.cell.hasValue && r.out == GetValue(f).out
    ensures r.after.events == f.events && GetValue(r.after) == VC.Read(true, Some(newValue))
  {
    var reply := VC.SetValue(f.cell, newValue);
    ValueReply(reply.returned, reply.out, f.(cell := reply.after))
  }

  /** `TryAddValue(value, out currentValue)`, over the corrected container. The `out`-less
      overload forwards to one the container class never defines. */
  function TryAddValue<E, V>(f: Carrier<E, V>, value: V): (r: ValueReply<E, V>)
    ensures r.returned == !f.cell.hasValue
    ensures f.cell.hasValue ==> r.after == f && r.out == f.cell.value
    ensures !f.cell.hasValue ==> r.after.events == f.events && GetValue(r.after) == VC.Read(true, Some(value))
  {
    var reply := VC.TryAddValue(f.cell, value);
    ValueReply(reply.returned, reply.out, f.(cell := reply.after))
  }

  // ---------------------------------------------------------------------------------------------
  // Properties.

  /** Every operation keeps a valid result valid. */
  lemma OperationsKeepValid<E, V, W>(f: Carrier<E, V>, e: Option<E>, sub: Option<Accumulator<E>>,
                                     carried: Option<Carrier<E, W>>, v: V)
    requires Valid(f)
    requires sub.Some? ==> Consistent(sub.value)
    requires carried.Some? ==> Consistent(carried.value.events)
    ensures AddError(f, e).Ok? ==> Valid(AddError(f, e).value)
    ensures AddInformational(f, e).Ok? ==> Valid(AddInformational(f, e).value)
    ensures AddResult(f, sub).Ok? ==> Valid(AddResult(f, sub).value)
    ensures AddResultWithValue(f, carried).Ok? ==> Valid(AddResultWithValue(f, carried).value.0)
    ensures Valid(RemoveValue(f).after) && Valid(SetValue(f, v).after) && Valid(TryAddValue(f, v).after)
  {
    AddErrorKeepsConsistent(f.events, e);
    AddInformationalKeepsConsistent(f.events, e);
    if sub.Some? {
      AddResultKeepsConsistent(f.events, sub.value, All);
    }
    if carried.Some? {
      AddResultKeepsConsistent(f.events, carried.value.events, All);
    }
  }

  /** A successful inner result holding one informational keeps the outer result successful and
      puts the event in `AllEvents` and `Informationals` only. */
  lemma AbsorbingInformationalKeepsSuccess<E, V>(event: E)
    ensures ActionResults.AddInformational(ActionResults.New<E>(false), Some(event)).Ok?
    ensures AddResult(New<E, V>(false), Some(ActionResults.AddInformational(ActionResults.New<E>(false), Some(event)).value)).Ok?
    ensures
      var outer := AddResult(New<E, V>(false), Some(ActionResults.AddInformational(ActionResults.New<E>(false), Some(event)).value)).value;
      && outer.events.success
      && outer.events.allEvents == [ResultEvents.ResultEvent(event, false)]
      && outer.events.informationals == [ResultEvents.ResultEvent(event, false)]
      && outer.events.errors == []
  {
  }

  /** An inner result with one error fails the outer result and puts the event in `AllEvents` and
      `Errors` only. */
  lemma AbsorbingErrorFails<E, V>(event: E)
    ensures ActionResults.AddError(ActionResults.New<E>(false), Some(event)).Ok?
    ensures AddResult(New<E, V>(false), Some(ActionResults.AddError(ActionResults.New<E>(false), Some(event)).value)).Ok?
    ensures
      var outer := AddResult(New<E, V>(false), Some(ActionResults.AddError(ActionResults.New<E>(false), Some(event)).value)).value;
      && !outer.events.success
      && outer.events.allEvents == [ResultEvents.ResultEvent(event, true)]
      && outer.events.errors == [ResultEvents.ResultEvent(event, true)]
      && outer.events.informationals == []
  {
  }

  /** An explicitly unsuccessful inner result with no events fails the outer result, whose lists
      stay empty. */
  lemma AbsorbingExplicitFailureFails<E, V>()
    ensures AddResult(New<E, V>(false), Some(ActionResults.New<E>(true))).Ok?
    ensures
      var outer := AddResult(New<E, V>(false), Some(ActionResults.New<E>(true))).value;
      && !outer.events.success
      && outer.events.allEvents == [] && outer.events.errors == [] && outer.events.informationals == []
  {
  }

  /** The value handed out by `AddResult<T>` is the one the sub-result's `GetValue` reports. */
  lemma AddResultWithValueReadsSubValue<E, V, W>(f: Carrier<E, V>, sub: Carrier<E, W>, w: W)
    ensures AddResultWithValue(f, Some(sub)).Ok?
    ensures AddResultWithValue(f, Some(sub)).value.1 == GetValue(sub).out
    ensures AddResultWithValue(f, Some(SetValue(sub, w).after)).value.1 == Some(w)
  {
  }
}
