/** The optional value cell behind value-carrying results (`ValueContainer<T>`) and the two extension
    methods over it (`AddValue`, `GetValue`). The per-instance lock is not modelled: every operation is
    one atomic transition from a cell to a reply and a new cell. */
module ValueContainers {
  import opened Common

  /** The pair (HasValue, Value). A `None` slot is `default(T)`. */
  datatype Cell<T> = Cell(hasValue: bool, value: Option<T>)

  /** What a mutating operation hands back: its boolean return value, its `out` argument and the
      container afterwards. */
  datatype Reply<T> = Reply(returned: bool, out: Option<T>, after: Cell<T>)

  /** What `GetValue` hands back: its return value and its `out` argument. */
  datatype Read<T> = Read(found: bool, out: Option<T>)

  /** A container whose `Value` is `default` whenever it has no value; every corrected operation keeps
      this, so `Value` never holds a stale value a caller could mistake for a real one. */
  predicate Clean<T>(c: Cell<T>)
  {
    !c.hasValue ==> c.value == None
  }

  /** `new ValueContainer<T>()`. */
  function New<T>(): (c: Cell<T>)
    ensures Clean(c)
  {
    Cell(false, None)
  }

  /** The `GetValue` extension: null container throws; otherwise the value is read only when
      `HasValue` holds, and `default` is reported when it does not. */
  function GetValue<T>(container: Option<Cell<T>>): (r: Result<Read<T>>)
    ensures container.None? <==> r == Err(ArgumentNull("container"))
    ensures container.Some? ==> r.Ok? && r.value.found == container.value.hasValue
    ensures container.Some? && container.value.hasValue ==> r.value.out == container.value.value
    ensures container.Some? && !container.value.hasValue ==> r.value.out == None
  {
    match container
    case None => Err(ArgumentNull("container"))
    case Some(c) => Ok(if c.hasValue then Read(true, c.value) else Read(false, None))
  }

  /** Reading a container that the caller knows is not null. */
  function Get<T>(c: Cell<T>): Read<T>
  {
    GetValue(Some(c)).value
  }

  /** `RemoveValue(out value)` as written: it clears `Value` but never clears `HasValue`, so the
      container still claims to hold a value afterwards. */
  function RemoveValueAsWritten<T>(c: Cell<T>): (r: Reply<T>)
    ensures r.returned == c.hasValue
    ensures c.hasValue ==> r.out == c.value && r.after == Cell(true, None)
    ensures !c.hasValue ==> r.out == None && r.after == c
  {
    if c.hasValue then Reply(true, c.value, Cell(c.hasValue, None)) else Reply(false, None, c)
  }

  /** `RemoveValue(out value)` as documented: returns whether a value was present, reports
      it, and leaves the container empty. `IValueContainer` also declares `RemoveValue()`, which
      the class never defines; it would be this with the `out` discarded. */
  function RemoveValue<T>(c: Cell<T>): (r: Reply<T>)
    requires Clean(c)
    ensures r.returned == c.hasValue
    ensures r.out == c.value
    ensures Get(r.after) == Read(false, None) && Clean(r.after)
  {
    Reply(c.hasValue, if c.hasValue then c.value else None, Cell(false, None))
  }

  /** `SetValue(newValue, out oldValue)`: returns whether a value was replaced and reports it; the
      container then holds `newValue`. The declared but undefined `SetValue(newValue)` would
      discard the `out`. */
  function SetValue<T>(c: Cell<T>, newValue: T): (r: Reply<T>)
    ensures r.returned == c.hasValue
    ensures c.hasValue ==> r.out == c.value
    ensures !c.hasValue ==> r.out == None
    ensures Get(r.after) == Read(true, Some(newValue)) && Clean(r.after)
  {
    var previous := if c.hasValue then c.value else None;
    Reply(c.hasValue, previous, Cell(true, Some(newValue)))
  }

  /** `TryAddValue(value, out currentValue)` as written: on an empty container it stores `value` and
      returns true, but never sets `HasValue`, so the value stays invisible. */
  function TryAddValueAsWritten<T>(c: Cell<T>, v: T): (r: Reply<T>)
    ensures r.returned == !c.hasValue
    ensures c.hasValue ==> r.after == c && r.out == c.value
    ensures !c.hasValue ==> r.after == Cell(false, Some(v)) && r.out == None
  {
    if c.hasValue then Reply(false, c.value, c) else Reply(true, None, Cell(c.hasValue, Some(v)))
  }

  /** `TryAddValue(value, out currentValue)` as documented: an occupied container is left
      alone and its value reported; an empty one afterwards holds `value`. The declared but
      undefined `TryAddValue(value)` would discard the `out`. */
  function TryAddValue<T>(c: Cell<T>, v: T): (r: Reply<T>)
    ensures r.returned == !c.hasValue
    ensures c.hasValue ==> r.after == c && r.out == c.value
    ensures !c.hasValue ==> r.out == None && Get(r.after) == Read(true, Some(v))
    ensures Clean(c) ==> Clean(r.after)
  {
    if c.hasValue then Reply(false, c.value, c) else Reply(true, None, Cell(true, Some(v)))
  }

  /** The `AddValue` extension: a null container throws `ArgumentNullException`, an occupied one
      throws `InvalidOperationException` and keeps its value; otherwise the value is added. It is
      stated over the corrected `TryAddValue`; the class as written would return without error
      and leave the value invisible. */
  function AddValue<T>(container: Option<Cell<T>>, v: T): (r: Result<Cell<T>>)
    ensures container.None? ==> r == Err(ArgumentNull("container"))
    ensures container.Some? && container.value.hasValue ==> r.Err? && r.failure.InvalidOperation?
    ensures container.Some? && !container.value.hasValue ==> r.Ok? && Get(r.value) == Read(true, Some(v))
  {
    match container
    case None => Err(ArgumentNull("container"))
    case Some(c) =>
      var reply := TryAddValue(c, v);
      if !reply.returned then
        Err(InvalidOperation("The specified value container already contains a value."))
      else
        Ok(reply.after)
  }

  // ---------------------------------------------------------------------------------------------
  // Properties relating the operations to each other.

  /** A fresh container reports no value, and the first `TryAddValue` on it succeeds. */
  lemma FreshContainerIsEmpty<T>(v: T)
    ensures Get(New<T>()) == Read(false, None)
    ensures TryAddValue(New<T>(), v).returned
    ensures !RemoveValue(New<T>()).returned
  {
  }

  /** Every corrected mutation keeps a clean container clean. */
  lemma MutationsKeepClean<T>(c: Cell<T>, v: T)
    requires Clean(c)
    ensures Clean(RemoveValue(c).after)
    ensures Clean(SetValue(c, v).after)
    ensures Clean(TryAddValue(c, v).after)
    ensures AddValue(Some(c), v).Ok? ==> Clean(AddValue(Some(c), v).value)
  {
  }

  /** Removing what was just added gives the value back and restores the empty container. */
  lemma RemoveUndoesAdd<T>(c: Cell<T>, v: T)
    requires Clean(c) && !c.hasValue
    ensures AddValue(Some(c), v).Ok?
    ensures RemoveValue(AddValue(Some(c), v).value) == Reply(true, Some(v), c)
  {
  }

  /** Setting back the value `SetValue` reported as replaced restores the container. */
  lemma SetValueRestores<T>(c: Cell<T>, v: T)
    requires c.hasValue && c.value.Some?
    ensures SetValue(c, v).out == c.value
    ensures SetValue(SetValue(c, v).after, c.value.value).after == c
  {
  }

  /** A second `AddValue` fails and leaves the first value readable. */
  lemma AddValueIsOnce<T>(c: Cell<T>, v: T, w: T)
    requires !c.hasValue
    ensures AddValue(Some(c), v).Ok?
    ensures AddValue(Some(AddValue(Some(c), v).value), w).Err?
    ensures Get(AddValue(Some(c), v).value) == Read(true, Some(v))
  {
  }

  // ---------------------------------------------------------------------------------------------
  // The two bodies that diverge from the documented contract, exhibited on concrete inputs.

  /** After the as-written removal the container still says it has a value, and `GetValue` then
      reports success with `default` instead of reporting that nothing is there. */
  lemma RemoveValueAsWrittenKeepsFlag(v: int)
    ensures RemoveValueAsWritten(Cell(true, Some(v))).returned
    ensures Get(RemoveValueAsWritten(Cell(true, Some(v))).after) == Read(true, None)
    ensures Get(RemoveValue(Cell(true, Some(v))).after) == Read(false, None)
  {
  }

  /** The as-written `TryAddValue` reports success yet the value cannot be read back, and a second
      `TryAddValue` also "succeeds" and silently overwrites the first. */
  lemma TryAddValueAsWrittenLosesValue(v: int, w: int)
    ensures TryAddValueAsWritten(New(), v).returned
    ensures Get(TryAddValueAsWritten(New(), v).after) == Read(false, None)
    ensures TryAddValueAsWritten(TryAddValueAsWritten(New(), v).after, w).returned
    ensures Get(TryAddValue(New(), v).after) == Read(true, Some(v))
    ensures !TryAddValue(TryAddValue(New(), v).after, w).returned
  {
  }
}
