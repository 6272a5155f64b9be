/** The result accumulator shared by `ActionResult`, `ActionResult<TEvent>`, `FuncResult` and
    `ValueResult`: a success flag that can only fall from true to false, and three order-preserving
    lists of tagged events (`AllEvents`, `Errors`, `Informationals`). A result absorbs another by
    appending contiguous blocks of the other's lists and AND-ing the flags. */
module ActionResults {
  import opened Common
  import opened ResultEvents
  import ValueContainers

  /** `EventCategories`, a flags enum over `int`: `Errors` = 1, `Informationals` = 2, `All` = 3,
      `None` = 0. Any other `int` is also a value of the type. */
  newtype Categories = int

  const All: Categories := 3
  const ErrorsOnly: Categories := 1
  const InformationalsOnly: Categories := 2
  const NoCategories: Categories := 0

  datatype Accumulator<E> = Accumulator(
    success: bool,
    allEvents: seq<ResultEvent<E>>,
    errors: seq<ResultEvent<E>>,
    informationals: seq<ResultEvent<E>>)

  /** The error-tagged subsequence, in order. */
  function ErrorsOf<E>(s: seq<ResultEvent<E>>): (r: seq<ResultEvent<E>>)
    ensures |r| <= |s|
    ensures forall i :: 0 <= i < |r| ==> r[i].isError && r[i] in s
  {
    if s == [] then []
    else if s[0].isError then [s[0]] + ErrorsOf(s[1..])
    else ErrorsOf(s[1..])
  }

  /** The informational-tagged subsequence, in order. */
  function InformationalsOf<E>(s: seq<ResultEvent<E>>): (r: seq<ResultEvent<E>>)
    ensures |r| <= |s|
    ensures forall i :: 0 <= i < |r| ==> !r[i].isError && r[i] in s
  {
    if s == [] then []
    else if !s[0].isError then [s[0]] + InformationalsOf(s[1..])
    else InformationalsOf(s[1..])
  }

  /** The documented relation between the three lists and the flag: `Errors` and `Informationals`
      are the tagged subsequences of `AllEvents`, and a successful result holds no errors. */
  ghost predicate Consistent<E>(a: Accumulator<E>)
  {
    && a.errors == ErrorsOf(a.allEvents)
    && a.informationals == InformationalsOf(a.allEvents)
    && (a.success ==> a.errors == [])
  }

  /** `new ActionResult(isUnsuccessful)`. */
  function New<E>(isUnsuccessful: bool): (a: Accumulator<E>)
    ensures a.success == !isUnsuccessful
    ensures a.allEvents == [] && a.errors == [] && a.informationals == []
    ensures Consistent(a)
  {
    Accumulator(!isUnsuccessful, [], [], [])
  }

  /** `AddError(error)`: null throws and changes nothing; otherwise the result fails and the
      error-tagged event is appended to `AllEvents` and `Errors`. */
  function AddError<E>(a: Accumulator<E>, error: Option<E>): (r: Result<Accumulator<E>>)
    ensures error.None? <==> r == Err(ArgumentNull("error"))
    ensures error.Some? ==>
      && r.Ok?
      && !r.value.success
      && r.value.allEvents == a.allEvents + [ResultEvent(error.value, true)]
      && r.value.errors == a.errors + [ResultEvent(error.value, true)]
      && r.value.informationals == a.informationals
  {
    match error
    case None => Err(ArgumentNull("error"))
    case Some(e) =>
      var event := NewResultEvent(Some(e), true).value;
      Ok(Accumulator(false, a.allEvents + [event], a.errors + [event], a.informationals))
  }

  /** `AddInformational(informational)`: null throws; otherwise the informational-tagged event is
      appended to `AllEvents` and `Informationals`, and the flag and `Errors` are untouched. */
  function AddInformational<E>(a: Accumulator<E>, informational: Option<E>): (r: Result<Accumulator<E>>)
    ensures informational.None? <==> r == Err(ArgumentNull("informational"))
    ensures informational.Some? ==>
      && r.Ok?
      && r.value.success == a.success
      && r.value.allEvents == a.allEvents + [ResultEvent(informational.value, false)]
      && r.value.errors == a.errors
      && r.value.informationals == a.informationals + [ResultEvent(informational.value, false)]
  {
    match informational
    case None => Err(ArgumentNull("informational"))
    case Some(e) =>
      var event := NewResultEvent(Some(e), false).value;
      Ok(Accumulator(a.success, a.allEvents + [event], a.errors, a.informationals + [event]))
  }

  /** The lists absorbed from `sub` under `categories`, flag left alone: `All` takes the three
      lists, `Errors` takes the errors into `AllEvents` and `Errors`, `Informationals` likewise, and
      every other value takes nothing. */
  function Absorb<E>(a: Accumulator<E>, sub: Accumulator<E>, categories: Categories): (r: Accumulator<E>)
    ensures r.success == a.success
    ensures categories == All ==>
      r.allEvents == a.allEvents + sub.allEvents && r.errors == a.errors + sub.errors &&
      r.informationals == a.informationals + sub.informationals
    ensures categories == ErrorsOnly ==>
      r.allEvents == a.allEvents + sub.errors && r.errors == a.errors + sub.errors &&
      r.informationals == a.informationals
    ensures categories == InformationalsOnly ==>
      r.allEvents == a.allEvents + sub.informationals && r.errors == a.errors &&
      r.informationals == a.informationals + sub.informationals
    ensures categories !in {All, ErrorsOnly, InformationalsOnly} ==> r == a
  {
    if categories == All then
      a.(allEvents := a.allEvents + sub.allEvents, errors := a.errors + sub.errors,
         informationals := a.informationals + sub.informationals)
    else if categories == ErrorsOnly then
      a.(allEvents := a.allEvents + sub.errors, errors := a.errors + sub.errors)
    else if categories == InformationalsOnly then
      a.(allEvents := a.allEvents + sub.informationals, informationals := a.informationals + sub.informationals)
    else
      a
  }

  /** `AddResult(result, categories)`: null throws; otherwise the selected lists are appended and
      the flags are AND-ed, whatever the categories. */
  function AddResult<E>(a: Accumulator<E>, sub: Option<Accumulator<E>>, categories: Categories): (r: Result<Accumulator<E>>)
    ensures sub.None? <==> r == Err(ArgumentNull("result"))
    ensures sub.Some? ==> r.Ok? && r.value.success == (a.success && sub.value.success)
    ensures sub.Some? ==> r.value.(success := a.success) == Absorb(a, sub.value, categories)
  {
    match sub
    case None => Err(ArgumentNull("result"))
    case Some(s) => Ok(Absorb(a, s, categories).(success := a.success && s.success))
  }

  /** A value-carrying result (`FuncResult`, `ValueResult`): the accumulator and its value cell. */
  datatype Carrier<E, V> = Carrier(events: Accumulator<E>, cell: ValueContainers.Cell<V>)

  /** An accumulator handed back together with an `out` value. */
  datatype WithValue<E, V> = WithValue(result: Accumulator<E>, out: Option<V>)

  /** `AddResult<T>(result, out value, categories)`: as `AddResult`, and the `out` value is the
      sub-result's value when it has one, else `default`. */
  function AddResultWithValue<E, V>(a: Accumulator<E>, sub: Option<Carrier<E, V>>, categories: Categories)
    : (r: Result<WithValue<E, V>>)
    ensures sub.None? <==> r == Err(ArgumentNull("result"))
    ensures sub.Some? ==> r.Ok? && Ok(r.value.result) == AddResult(a, Some(sub.value.events), categories)
    ensures sub.Some? && sub.value.cell.hasValue ==> r.value.out == sub.value.cell.value
    ensures sub.Some? && !sub.value.cell.hasValue ==> r.value.out == None
  {
    match sub
    case None => Err(ArgumentNull("result"))
    case Some(s) =>
      var value := if s.cell.hasValue then s.cell.value else None;
      Ok(WithValue(AddResult(a, Some(s.events), categories).value, value))
  }

  // ---------------------------------------------------------------------------------------------
  // The filters.

  lemma {:induction false} ErrorsOfAppend<E>(s: seq<ResultEvent<E>>, t: seq<ResultEvent<E>>)
    ensures ErrorsOf(s + t) == ErrorsOf(s) + ErrorsOf(t)
  {
    if s == [] {
      assert s + t == t;
    } else {
      assert (s + t)[0] == s[0];
      assert (s + t)[1..] == s[1..] + t;
      ErrorsOfAppend(s[1..], t);
    }
  }

  lemma {:induction false} InformationalsOfAppend<E>(s: seq<ResultEvent<E>>, t: seq<ResultEvent<E>>)
    ensures InformationalsOf(s + t) == InformationalsOf(s) + InformationalsOf(t)
  {
    if s == [] {
      assert s + t == t;
    } else {
      assert (s + t)[0] == s[0];
      assert (s + t)[1..] == s[1..] + t;
      InformationalsOfAppend(s[1..], t);
    }
  }

  /** Filtering twice is filtering once, and the other filter of a filtered list is empty. */
  lemma {:induction false} FiltersAreIdempotent<E>(s: seq<ResultEvent<E>>)
    ensures ErrorsOf(ErrorsOf(s)) == ErrorsOf(s)
    ensures InformationalsOf(InformationalsOf(s)) == InformationalsOf(s)
    ensures InformationalsOf(ErrorsOf(s)) == []
    ensures ErrorsOf(InformationalsOf(s)) == []
  {
    if s != [] {
      FiltersAreIdempotent(s[1..]);
      if s[0].isError {
        assert ([s[0]] + ErrorsOf(s[1..]))[1..] == ErrorsOf(s[1..]);
      } else {
        assert ([s[0]] + InformationalsOf(s[1..]))[1..] == InformationalsOf(s[1..]);
      }
    }
  }

  /** Every event is either an error or an informational: the two filters split the list. */
  lemma {:induction false} FiltersPartition<E>(s: seq<ResultEvent<E>>)
    ensures |ErrorsOf(s)| + |InformationalsOf(s)| == |s|
    ensures multiset(ErrorsOf(s)) + multiset(InformationalsOf(s)) == multiset(s)
  {
    if s != [] {
      FiltersPartition(s[1..]);
      assert s == [s[0]] + s[1..];
    }
  }

  // ---------------------------------------------------------------------------------------------
  // Invariants every operation preserves.

  lemma AddErrorKeepsConsistent<E>(a: Accumulator<E>, error: Option<E>)
    requires Consistent(a)
    ensures AddError(a, error).Ok? ==> Consistent(AddError(a, error).value)
  {
    if error.Some? {
      ErrorsOfAppend(a.allEvents, [ResultEvent(error.value, true)]);
      InformationalsOfAppend(a.allEvents, [ResultEvent(error.value, true)]);
    }
  }

  lemma AddInformationalKeepsConsistent<E>(a: Accumulator<E>, informational: Option<E>)
    requires Consistent(a)
    ensures AddInformational(a, informational).Ok? ==> Consistent(AddInformational(a, informational).value)
  {
    if informational.Some? {
      ErrorsOfAppend(a.allEvents, [ResultEvent(informational.value, false)]);
      InformationalsOfAppend(a.allEvents, [ResultEvent(informational.value, false)]);
    }
  }

  lemma AbsorbKeepsLists<E>(a: Accumulator<E>, sub: Accumulator<E>, categories: Categories)
    requires Consistent(a) && Consistent(sub)
    ensures Absorb(a, sub, categories).errors == ErrorsOf(Absorb(a, sub, categories).allEvents)
    ensures Absorb(a, sub, categories).informationals == InformationalsOf(Absorb(a, sub, categories).allEvents)
  {
    FiltersAreIdempotent(sub.allEvents);
    ErrorsOfAppend(a.allEvents, sub.allEvents);
    InformationalsOfAppend(a.allEvents, sub.allEvents);
    ErrorsOfAppend(a.allEvents, sub.errors);
    InformationalsOfAppend(a.allEvents, sub.errors);
    ErrorsOfAppend(a.allEvents, sub.informationals);
    InformationalsOfAppend(a.allEvents, sub.informationals);
  }

  /** Absorbing a consistent sub-result keeps the result consistent, whatever the categories. */
  lemma AddResultKeepsConsistent<E>(a: Accumulator<E>, sub: Accumulator<E>, categories: Categories)
    requires Consistent(a) && Consistent(sub)
    ensures Consistent(AddResult(a, Some(sub), categories).value)
  {
    AbsorbKeepsLists(a, sub, categories);
  }

  /** No operation turns a failed result back into a successful one. */
  lemma SuccessIsMonotone<E>(a: Accumulator<E>, e: E, sub: Accumulator<E>, categories: Categories)
    ensures AddError(a, Some(e)).value.success == false
    ensures AddInformational(a, Some(e)).value.success == a.success
    ensures AddResult(a, Some(sub), categories).value.success ==> a.success
  {
  }

  /** An explicitly unsuccessful sub-result with no events fails the parent, under every category,
      while the parent's lists stay as they were. */
  lemma UnsuccessfulSubResultPoisons<E>(a: Accumulator<E>, categories: Categories)
    ensures !AddResult(a, Some(New<E>(true)), categories).value.success
    ensures AddResult(a, Some(New<E>(true)), categories).value.allEvents == a.allEvents
    ensures AddResult(a, Some(New<E>(true)), categories).value.errors == a.errors
    ensures AddResult(a, Some(New<E>(true)), categories).value.informationals == a.informationals
  {
  }

  // ---------------------------------------------------------------------------------------------
  // Sequences of operations.

  /** One non-throwing call on a result. */
  datatype Op<E> =
    | DoAddError(error: E)
    | DoAddInformational(informational: E)
    | DoAddResult(sub: Accumulator<E>, categories: Categories)

  function Step<E>(a: Accumulator<E>, op: Op<E>): Accumulator<E>
  {
    match op
    case DoAddError(e) => AddError(a, Some(e)).value
    case DoAddInformational(e) => AddInformational(a, Some(e)).value
    case DoAddResult(sub, c) => AddResult(a, Some(sub), c).value
  }

  function Run<E>(a: Accumulator<E>, ops: seq<Op<E>>): Accumulator<E>
    decreases |ops|
  {
    if ops == [] then a else Run(Step(a, ops[0]), ops[1..])
  }

  ghost predicate SubResultsConsistent<E>(ops: seq<Op<E>>)
  {
    forall i :: 0 <= i < |ops| && ops[i].DoAddResult? ==> Consistent(ops[i].sub)
  }

  /** Any sequence of calls keeps a consistent result consistent, and its final flag can be true
      only if it started true. */
  lemma {:induction false} RunKeepsConsistent<E>(a: Accumulator<E>, ops: seq<Op<E>>)
    requires Consistent(a) && SubResultsConsistent(ops)
    ensures Consistent(Run(a, ops))
    ensures Run(a, ops).success ==> a.success
    decreases |ops|
  {
    if ops != [] {
      match ops[0] {
        case DoAddError(e) => AddErrorKeepsConsistent(a, Some(e));
        case DoAddInformational(e) => AddInformationalKeepsConsistent(a, Some(e));
        case DoAddResult(sub, c) => AddResultKeepsConsistent(a, sub, c);
      }
      RunKeepsConsistent(Step(a, ops[0]), ops[1..]);
    }
  }

  /** Calls only ever append: each list before a call is a prefix of the list after it. */
  lemma {:induction false} RunOnlyAppends<E>(a: Accumulator<E>, ops: seq<Op<E>>)
    ensures a.allEvents <= Run(a, ops).allEvents
    ensures a.errors <= Run(a, ops).errors
    ensures a.informationals <= Run(a, ops).informationals
    decreases |ops|
  {
    if ops != [] {
      RunOnlyAppends(Step(a, ops[0]), ops[1..]);
    }
  }
}
