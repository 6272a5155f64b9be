/** `ValueResult<TValue>` and `ValueResult<TEvent, TValue>`: the accumulator with `HasValue` and
    `Value` held inline rather than in a `ValueContainer`. The event operations are line for line
    those of `ActionResult` with every category; the value operations have their own bodies, which
    read `Value` without looking at `HasValue` first. */
module ValueResults {
  import opened Common
  import opened ActionResults
  import VC = ValueContainers
  import FuncResults

  /** What `TryAddValue(value)` hands back: its return value and the result afterwards. */
  datatype Added<E, V> = Added(returned: bool, after: Carrier<E, V>)

  /** `new ValueResult(isUnsuccessful)`: `Value` is `default`, `HasValue` false. */
  function New<E, V>(isUnsuccessful: bool): (r: Carrier<E, V>)
    ensures r.cell == VC.Cell(false, None) && VC.Clean(r.cell)
    ensures r.events.success == !isUnsuccessful
    ensures r.events.allEvents == [] && r.events.errors == [] && r.events.informationals == []
  {
    Carrier(ActionResults.New(isUnsuccessful), VC.Cell(false, None))
  }

  /** `AddValue(value)`: a result that has a value throws and keeps it; otherwise it now holds
      `value`. */
  function AddValue<E, V>(r: Carrier<E, V>, value: V): (s: Result<Carrier<E, V>>)
    ensures r.cell.hasValue <==> s == Err(InvalidOperation("Result already contains a value."))
    ensures !r.cell.hasValue ==> s.Ok? && s.value.events == r.events && s.value.cell == VC.Cell(true, Some(value))
  {
    if r.cell.hasValue then Err(InvalidOperation("Result already contains a value."))
    else Ok(r.(cell := VC.Cell(true, Some(value))))
  }

  /** `RemoveValue(out value)`: returns whether there was a value; the `out` is whatever `Value`
      held (documented as undefined when there was none); afterwards there is no value and `Value`
      is `default`. */
  function RemoveValue<E, V>(r: Carrier<E, V>): (s: FuncResults.ValueReply<E, V>)
    ensures s.returned == r.cell.hasValue
    ensures r.cell.hasValue ==> s.out == r.cell.value
    ensures s.after.events == r.events && s.after.cell == VC.Cell(false, None)
  {
    FuncResults.ValueReply(r.cell.hasValue, r.cell.value, r.(cell := VC.Cell(false, None)))
  }

  /** `SetValue(newValue, out oldValue)`: removes, then stores `newValue`. */
  function SetValue<E, V>(r: Carrier<E, V>, newValue: V): (s: FuncResults.ValueReply<E, V>)
    ensures s.returned == r.cell.hasValue
    ensures r.cell.hasValue ==> s.out == r.cell.value
    ensures s.after.events == r.events && s.after.cell == VC.Cell(true, Some(newValue))
  {
    var removed := RemoveValue(r);
    FuncResults.ValueReply(removed.returned, removed.out, removed.after.(cell := VC.Cell(true, Some(newValue))))
  }

  /** `TryAddValue(value)` as written: on an empty result it stores `value` and returns true, but
      leaves `HasValue` false. */
  function TryAddValueAsWritten<E, V>(r: Carrier<E, V>, value: V): (s: Added<E, V>)
    ensures s.returned == !r.cell.hasValue
    ensures r.cell.hasValue ==> s.after == r
    ensures !r.cell.hasValue ==> s.after.events == r.events && s.after.cell == VC.Cell(false, Some(value))
  {
    if r.cell.hasValue then Added(false, r) else Added(true, r.(cell := r.cell.(value := Some(value))))
  }

  /** `TryAddValue(value)` as documented: an empty result afterwards contains `value`. */
  function TryAddValue<E, V>(r: Carrier<E, V>, value: V): (s: Added<E, V>)
    ensures s.returned == !r.cell.hasValue
    ensures r.cell.hasValue ==> s.after == r
    ensures !r.cell.hasValue ==> s.after.events == r.events && VC.Get(s.after.cell) == VC.Read(true, Some(value))
  {
    if r.cell.hasValue then Added(false, r) else Added(true, r.(cell := VC.Cell(true, Some(value))))
  }

  // ---------------------------------------------------------------------------------------------
  // Properties.

  /** The event operations are the accumulator's, with every category, and leave the value alone;
      `AddResult<T>` hands out the sub-result's value or `default`. */
  lemma EventOperationsAreActionResults<E, V, W>(r: Carrier<E, V>, e: E, sub: Accumulator<E>, carried: Carrier<E, W>)
    ensures FuncResults.AddError(r, Some(e)).Ok?
    ensures FuncResults.AddError(r, Some(e)).value.cell == r.cell
    ensures !FuncResults.AddError(r, Some(e)).value.events.success
    ensures FuncResults.AddInformational(r, Some(e)).value.events.success == r.events.success
    ensures FuncResults.AddResult(r, Some(sub)).value.events.allEvents == r.events.allEvents + sub.allEvents
    ensures FuncResults.AddResult(r, Some(sub)).value.events.success == (r.events.success && sub.success)
    ensures FuncResults.AddResultWithValue(r, Some(carried)).value.1 ==
      (if carried.cell.hasValue then carried.cell.value else None)
  {
  }

  /** On a result with no stale value, the inline value operations do what the container's do. */
  lemma InlineAgreesWithContainer<E, V>(r: Carrier<E, V>, v: V)
    requires VC.Clean(r.cell)
    ensures RemoveValue(r) == FuncResults.RemoveValue(r)
    ensures SetValue(r, v) == FuncResults.SetValue(r, v)
    ensures TryAddValue(r, v).returned == FuncResults.TryAddValue(r, v).returned
    ensures TryAddValue(r, v).after == FuncResults.TryAddValue(r, v).after
    ensures AddValue(r, v).Ok? == VC.AddValue(Some(r.cell), v).Ok?
  {
  }

  /** Removing a value just added gives it back and leaves the result as it was created. */
  lemma RemoveUndoesAdd<E, V>(isUnsuccessful: bool, v: V)
    ensures AddValue(New<E, V>(isUnsuccessful), v).Ok?
    ensures RemoveValue(AddValue(New<E, V>(isUnsuccessful), v).value).returned
    ensures RemoveValue(AddValue(New<E, V>(isUnsuccessful), v).value).out == Some(v)
    ensures RemoveValue(AddValue(New<E, V>(isUnsuccessful), v).value).after == New(isUnsuccessful)
  {
  }

  /** The as-written `TryAddValue` reports success, yet the result still says it has no value and a
      later `AddValue` overwrites the value without complaint; the corrected one makes that
      `AddValue` throw. */
  lemma TryAddValueAsWrittenHidesValue(v: int, w: int)
    ensures TryAddValueAsWritten(New<int, int>(false), v).returned
    ensures VC.Get(TryAddValueAsWritten(New<int, int>(false), v).after.cell) == VC.Read(false, None)
    ensures AddValue(TryAddValueAsWritten(New<int, int>(false), v).after, w).Ok?
    ensures TryAddValue(New<int, int>(false), v).returned
    ensures AddValue(TryAddValue(New<int, int>(false), v).after, w).Err?
  {
  }
}
