# Drexel.Loggers in Dafny

A model of the core of Drexel.Loggers, a C# library of structured log events and of the result
objects that collect them:

- **Events.** Event code groups and event codes are registered process-wide by 16-bit id and
  value. `EventInfo` and `LogEvent` are records built by `LogEventTemplate`s, in the current
  revision and in the older `Templates` revision. `LocalizableString` is the culture-keyed text
  behind messages, reasons and suggestions.
- **Results.** `ActionResult`, `FuncResult`, `ValueResult` and `TryResult` accumulate error and
  informational events under a success flag. `ResultEvent` tags an event as error or
  informational.
- **Supporting types.** `ValueContainer` is the optional value cell. `NonNullList` is the
  null-refusing list every event collection derives from.

Modelling conventions:

- A C# `null` argument is `Option.None`. A `default(T)` in a value slot is also `None`.
- An exception the source throws is `Result.Err(Failure)`. The failure carries the exception kind,
  the parameter name and the message text.
- Mutation is state passing. Each mutating call is a pure function from the old object to its
  return value, its `out` arguments and the new object.
- The static registries of groups and codes become an explicit `EventCodes.Registry` value that
  constructors take and return.
- The four result classes share one accumulator, `ActionResults.Accumulator<E>`, with a generic
  event type `E`. The value-carrying results are an accumulator paired with a
  `ValueContainers.Cell` (`ActionResults.Carrier`).
- Culture-aware string comparison is replaced by ordinal comparison (`Localization.CompareOrdinal`).
- Integer widths are explicit: `ushort` is `EventCodes.UInt16` and `int` is `EventCodes.Int32`.
  The event code hash writes out the 32-bit two's-complement reinterpretation.

Files, one module each:

- `common.dfy`: `Option`, `Failure`, `Result`.
- `decimal.dfy`: invariant decimal rendering and its parser.
- `value_container.dfy`: `ValueContainer`.
- `localizable_string.dfy`: `LocalizableString`.
- `event_codes.dfy`: `EventCodeGroup` and `EventCode`.
- `events.dfy`: `EventInfo`, `LogEvent` and `LogEventTemplate`.
- `legacy_templates.dfy`: the `Templates` revision of `LogEventTemplate`.
- `non_null_list.dfy`: `NonNullList`.
- `result_event.dfy`: `ResultEvent`.
- `action_result.dfy`: `ActionResult`.
- `func_result.dfy`: `FuncResult`.
- `value_result.dfy`: `ValueResult`.
- `try_result.dfy`: `TryResult`.

## Model

All source paths are under `src/Drexel.Loggers/`, written out in full below.

| member | source | states |
|---|---|---|
| Decimal.FromNat | src/Drexel.Loggers/Events/EventCodeGroup.cs:139 | an id renders as a non-empty string of digits with no leading zero, one digit exactly when it is below ten |
| Decimal.ParseFromNat | src/Drexel.Loggers/Events/EventCodeGroup.cs:139 | parsing the invariant rendering of a number gives the number back |
| Decimal.FromNatInjective | src/Drexel.Loggers/Events/EventCode.cs:54 | distinct numbers render as distinct strings |
| ValueContainers.New | src/Drexel.Loggers/Results/ValueContainer.cs:7-13 | a fresh container has no value and its slot holds `default` |
| ValueContainers.GetValue | src/Drexel.Loggers/Results/ValueContainerExtensions.cs:70-89 | a null container throws `ArgumentNullException("container")`; otherwise it reports `HasValue`, and it reads `Value` only when `HasValue` holds, reporting `default` otherwise |
| ValueContainers.RemoveValueAsWritten | src/Drexel.Loggers/Results/ValueContainer.cs:19-35 | as written, removal returns whether a value was present and clears `Value` but leaves `HasValue` true |
| ValueContainers.RemoveValue | src/Drexel.Loggers/Results/ValueContainer.cs:19-35 | corrected removal returns whether a value was present and reports that value; the container is then empty and reads as empty |
| ValueContainers.SetValue | src/Drexel.Loggers/Results/ValueContainer.cs:37-56 | returns whether a value was replaced, reports the old value or `default`, and the container then holds the new value |
| ValueContainers.TryAddValueAsWritten | src/Drexel.Loggers/Results/ValueContainer.cs:58-74 | as written, an empty container stores the value and returns true but keeps `HasValue` false |
| ValueContainers.TryAddValue | src/Drexel.Loggers/Results/ValueContainer.cs:58-74 | corrected: an occupied container is unchanged and reports its value; an empty one returns true and then reads back the new value; a clean container stays clean |
| ValueContainers.AddValue | src/Drexel.Loggers/Results/ValueContainerExtensions.cs:28-39 | a null container throws `ArgumentNullException`; an occupied one throws `InvalidOperationException`; otherwise the container then reads back the value |
| ValueContainers.FreshContainerIsEmpty | src/Drexel.Loggers/Results/ValueContainer.cs:7-13 | a fresh container reads as empty, its first `TryAddValue` succeeds, and removing from it returns false |
| ValueContainers.MutationsKeepClean | src/Drexel.Loggers/Results/ValueContainer.cs:19-74 | every corrected mutation keeps `Value` at `default` whenever `HasValue` is false |
| ValueContainers.RemoveUndoesAdd | src/Drexel.Loggers/Results/ValueContainer.cs:19-35 | removing a value just added returns true, hands back that value and restores the empty container |
| ValueContainers.SetValueRestores | src/Drexel.Loggers/Results/ValueContainer.cs:37-56 | setting back the value `SetValue` reported restores the original container |
| ValueContainers.AddValueIsOnce | src/Drexel.Loggers/Results/ValueContainerExtensions.cs:28-39 | a second `AddValue` throws and the first value stays readable |
| ValueContainers.RemoveValueAsWrittenKeepsFlag | src/Drexel.Loggers/Results/ValueContainer.cs:23-27 | after the as-written removal, `GetValue` reports success with `default`, where the corrected removal reports nothing there |
| ValueContainers.TryAddValueAsWrittenLosesValue | src/Drexel.Loggers/Results/ValueContainer.cs:67-71 | the as-written `TryAddValue` succeeds but its value cannot be read back, and a second call also succeeds; the corrected one keeps the value and refuses the second call |
| Localization.FromInvariant | src/Drexel.Loggers/LocalizableString.cs:19-32 | null text throws `ArgumentNullException("invariantLocalization")`; otherwise the only entry is the invariant one, which is preferred |
| Localization.FromCulture | src/Drexel.Loggers/LocalizableString.cs:46-59 | the text is checked for null before the culture; the result has that one entry and prefers it |
| Localization.FromMapAsWritten | src/Drexel.Loggers/LocalizableString.cs:75-82 | the preferred culture is checked for null before the map, and the map is stored as given, with no check that it holds the preferred culture |
| Localization.FromMap | src/Drexel.Loggers/LocalizableString.cs:75-82 | with the documented obligation met, the same null checks apply, the map and preferred culture are kept, and the string is valid |
| Localization.ToStringAsWritten | src/Drexel.Loggers/LocalizableString.cs:199-213 | a present culture gives its own entry; it fails exactly when the preferred entry is needed and missing |
| Localization.Resolve | src/Drexel.Loggers/LocalizableString.cs:199-213 | on a valid string: a null culture gives the preferred entry, a present culture its own, an absent culture the preferred one; the result is one of the localizations |
| Localization.ToStringAgreesWithResolve | src/Drexel.Loggers/LocalizableString.cs:199-213 | on a valid string the as-written `ToString` never throws and equals `Resolve` |
| Localization.FromMapAsWrittenAcceptsMissingPreferred | src/Drexel.Loggers/LocalizableString.cs:75-82 | a map without the preferred culture is accepted, and the parameterless `ToString` then throws |
| Localization.CompareOrdinal | src/Drexel.Loggers/LocalizableString.cs:153 | the comparison of resolved texts yields -1, 0 or 1 |
| Localization.CompareOrdinalZeroIffEqual | src/Drexel.Loggers/LocalizableString.cs:168 | the comparison is zero exactly when the two texts are equal |
| Localization.CompareOrdinalAntisymmetric | src/Drexel.Loggers/LocalizableString.cs:153 | swapping the operands negates the comparison |
| Localization.CompareOrdinalTransitive | src/Drexel.Loggers/LocalizableString.cs:153 | the strict order on texts is transitive |
| Localization.Equals | src/Drexel.Loggers/LocalizableString.cs:158-171 | false against null; otherwise true exactly when both strings resolve to the same text for the culture |
| Localization.CompareTo | src/Drexel.Loggers/LocalizableString.cs:143-156 | 1 against null; otherwise zero exactly when `Equals` holds for the same culture |
| Localization.OpEquals | src/Drexel.Loggers/LocalizableString.cs:103-113 | two nulls are equal, a null left operand equals only null, and otherwise `Equals` under the preferred cultures decides |
| Localization.OpNotEquals | src/Drexel.Loggers/LocalizableString.cs:131-141 | the same null conventions, with the negation of `Equals` |
| Localization.NotEqualsNegatesEquals | src/Drexel.Loggers/LocalizableString.cs:103-141 | `!=` is always the negation of `==` |
| Localization.OpEqualsSymmetric | src/Drexel.Loggers/LocalizableString.cs:103-113 | `==` is symmetric, although only the left operand's `Equals` runs |
| Localization.EqualsIsEquivalence | src/Drexel.Loggers/LocalizableString.cs:158-171 | under a fixed culture `Equals` is reflexive, symmetric and transitive |
| Localization.CompareToIsOrdering | src/Drexel.Loggers/LocalizableString.cs:143-156 | under a fixed culture `CompareTo` is antisymmetric and transitive |
| Localization.InvariantTextResolvesEverywhere | src/Drexel.Loggers/LocalizableString.cs:19-32 | an invariant-only string resolves to its text for every culture |
| Localization.SingleCultureResolvesEverywhere | src/Drexel.Loggers/LocalizableString.cs:46-59 | a single-culture string resolves to its text for every culture |
| Localization.FallbackMakesDifferentCulturesEqual | src/Drexel.Loggers/LocalizableString.cs:199-213 | the same text in French and in German is equal under Japanese and under no culture, because both fall back |
| EventCodes.Empty | src/Drexel.Loggers/Events/EventCodeGroup.cs:20-26 | the registry starts empty and valid |
| EventCodes.CreateGroup | src/Drexel.Loggers/Events/EventCodeGroup.cs:40-59 | a used id throws `ArgumentException("id")` and changes nothing; otherwise the group is filed under its id with an empty code table |
| EventCodes.CreateCode | src/Drexel.Loggers/Events/EventCode.cs:35-55 | a null group throws `ArgumentNullException("group")`; a value already in the group throws `ArgumentException("value")`; either way nothing changes; otherwise only that group's table gains the code |
| EventCodes.CreateGroupKeepsValid | src/Drexel.Loggers/Events/EventCodeGroup.cs:50-58 | group registration keeps every group filed under its own id with a code table |
| EventCodes.CreateCodeKeepsValid | src/Drexel.Loggers/Events/EventCode.cs:47-52 | code registration keeps every code filed under its own value in its own group's table |
| EventCodes.CreatedGroupIsListed | src/Drexel.Loggers/Events/EventCodeGroup.cs:61 | a new group appears in `Groups` with no event codes, and every earlier group remains |
| EventCodes.CreatedCodeIsListed | src/Drexel.Loggers/Events/EventCodeGroup.cs:71 | a new code appears in its group's `EventCodes`, and the same value is then refused |
| EventCodes.CreateCodeTouchesOneGroup | src/Drexel.Loggers/Events/EventCode.cs:47 | registering a code leaves every other group's codes unchanged |
| EventCodes.RegisteredCodesAreUnique | src/Drexel.Loggers/Events/EventCode.cs:113-124 | two registered codes that are `Equals` are the same code |
| EventCodes.GroupEquals | src/Drexel.Loggers/Events/EventCodeGroup.cs:115-123 | never equal to null; otherwise equal exactly when the ids are |
| EventCodes.CompareUInt16 | src/Drexel.Loggers/Events/EventCodeGroup.cs:111 | the sign of the comparison orders the two `ushort`s |
| EventCodes.GroupCompareTo | src/Drexel.Loggers/Events/EventCodeGroup.cs:102-113 | 1 against null; otherwise zero exactly when `Equals`, and negative exactly when the id is smaller |
| EventCodes.GroupOpEquals | src/Drexel.Loggers/Events/EventCodeGroup.cs:78-88 | both null, or both present with equal ids |
| EventCodes.GroupOpNotEquals | src/Drexel.Loggers/Events/EventCodeGroup.cs:90-100 | always the negation of `==` |
| EventCodes.GroupHash | src/Drexel.Loggers/Events/EventCodeGroup.cs:137 | the hash lies in the `ushort` range |
| EventCodes.GroupHashAgreesWithEquals | src/Drexel.Loggers/Events/EventCodeGroup.cs:115-137 | two groups have the same hash exactly when they are `Equals` |
| EventCodes.GroupToString | src/Drexel.Loggers/Events/EventCodeGroup.cs:139 | the text is a non-empty string of digits |
| EventCodes.GroupToStringRoundTrip | src/Drexel.Loggers/Events/EventCodeGroup.cs:139 | the text parses back to the id |
| EventCodes.GroupCompareToIsOrdering | src/Drexel.Loggers/Events/EventCodeGroup.cs:102-113 | group comparison is antisymmetric and transitive |
| EventCodes.CodeEquals | src/Drexel.Loggers/Events/EventCode.cs:113-124 | never equal to null; otherwise equal exactly when the group ids and the values are |
| EventCodes.CodeCompareTo | src/Drexel.Loggers/Events/EventCode.cs:91-111 | 1 against null; otherwise zero exactly when `Equals`, and negative exactly when (group id, value) is lexicographically smaller |
| EventCodes.CodeOpEquals | src/Drexel.Loggers/Events/EventCode.cs:67-77 | a null left operand equals only null; otherwise `Equals` decides |
| EventCodes.CodeOpNotEquals | src/Drexel.Loggers/Events/EventCode.cs:79-89 | always the negation of `==` |
| EventCodes.CodeHashDecodes | src/Drexel.Loggers/Events/EventCode.cs:138 | the high 16 bits of the hash are the group id and the low 16 bits are the value |
| EventCodes.CodeHashInjective | src/Drexel.Loggers/Events/EventCode.cs:138 | two codes have the same hash exactly when they are `Equals` |
| EventCodes.IndexOfDash | src/Drexel.Loggers/Events/EventCode.cs:54 | the position of the first dash, or the length when there is none |
| EventCodes.ParseCodeString | src/Drexel.Loggers/Events/EventCode.cs:54 | a parsed text has a dash, with a number on each side |
| EventCodes.CodeToStringRoundTrip | src/Drexel.Loggers/Events/EventCode.cs:54 | the "group-value" text parses back to the group id and the value |
| EventCodes.CodeToStringInjective | src/Drexel.Loggers/Events/EventCode.cs:54 | two codes have the same text exactly when they are `Equals` |
| EventCodes.CodeCompareToIsOrdering | src/Drexel.Loggers/Events/EventCode.cs:91-111 | code comparison is antisymmetric and transitive |
| Events.NewParameter | src/Drexel.Loggers/Events/EventParameter.cs:22-26 | a null name throws `ArgumentNullException("name")`; otherwise the name and value are stored |
| Events.CaptureException | src/Drexel.Loggers/Events/EventExceptionInfo.cs:45-49 | a null exception throws; otherwise it is captured under its static type |
| Events.NewEventInfo | src/Drexel.Loggers/Events/EventInfo.cs:32-44 | the code, then the message, must be non-null; the reason is kept as given; null suggestions and parameters become empty lists |
| Events.NewLogEvent | src/Drexel.Loggers/Events/LogEvent.cs:34-44 | null info throws; null inner events become empty; every other field is stored as given |
| Events.NewTemplate | src/Drexel.Loggers/Events/LogEventTemplate.cs:36-48 | the code, then the message, must be non-null; every field is stored as given |
| Events.CreateInternal | src/Drexel.Loggers/Events/LogEventTemplate.cs:257-276 | the event carries the given severity, exception and inner events (null inner events become empty); its info carries the given code, message and reason, with null suggestions and parameters becoming empty lists |
| Events.Create | src/Drexel.Loggers/Events/LogEventTemplate.cs:82-99 | null data throws `ArgumentNullException("data")`; otherwise the event has the template's code, severity and message, the call's reason and suggestions falling back on the defaults only when null, and no exception |
| Events.CreateWithException | src/Drexel.Loggers/Events/LogEventTemplate.cs:108-129 | as `Create`, and the event carries exception info exactly when an exception is given |
| Events.CreateFrom | src/Drexel.Loggers/Events/LogEventTemplateExtensions.cs:39-58 | a null template throws `ArgumentNullException("template")`; otherwise the arguments are packed into one `EventData` for `Create` |
| Events.CreateFromWithException | src/Drexel.Loggers/Events/LogEventTemplateExtensions.cs:92-114 | the same for the exception overload |
| Events.EventInfoRoundTrip | src/Drexel.Loggers/Events/EventInfo.cs:32-44 | rebuilding an `EventInfo` from its own fields gives it back |
| Events.EventInfoNullListsAreEmpty | src/Drexel.Loggers/Events/EventInfo.cs:41-43 | null lists and empty lists build the same `EventInfo` |
| Events.LogEventRoundTrip | src/Drexel.Loggers/Events/LogEvent.cs:34-44 | rebuilding a `LogEvent` from its fields gives it back, and null inner events mean none |
| Events.TemplateFixesSeverityAndCode | src/Drexel.Loggers/Events/LogEventTemplate.cs:82-99 | every event a constructed template creates has that template's severity and code |
| Events.EmptySuggestionsOverrideDefault | src/Drexel.Loggers/Events/LogEventTemplate.cs:95 | an empty non-null suggestion list overrides the default, and a null one takes it |
| Events.CreateIsCreateWithoutException | src/Drexel.Loggers/Events/LogEventTemplate.cs:279-300 | the exception overload with a null exception is the plain overload |
| Events.ExceptionInfoPresentIffSupplied | src/Drexel.Loggers/Events/LogEventTemplate.cs:279-300 | exception info is present exactly when an exception is supplied, holds that exception, and nothing else differs |
| Events.OmittedArgumentsUseDefaults | src/Drexel.Loggers/Events/LogEventTemplateExtensions.cs:39-58 | omitting every optional argument applies every template default and leaves parameters and inner events empty |
| Events.ExplicitReasonWins | src/Drexel.Loggers/Events/LogEventTemplate.cs:94 | an explicit reason always wins over the template default |
| LegacyTemplates.NewLegacyTemplate | src/Drexel.Loggers/Templates/LogEventTemplate.cs:16-32 | the code, then the message, must be non-null; the defaults are stored; the severity is never assigned and reads as `Critical` |
| LegacyTemplates.Create | src/Drexel.Loggers/Templates/LogEventTemplate.cs:45-61 | the event has the template's severity, code and message, the arguments fall back on the defaults only when null, and there is no exception |
| LegacyTemplates.CreateWithException | src/Drexel.Loggers/Templates/LogEventTemplate.cs:70-89 | exception info is present exactly when an exception is given; otherwise the event is the one `Create` makes |
| LegacyTemplates.LegacyEventsAreCritical | src/Drexel.Loggers/Templates/LogEventTemplate.cs:32 | every event an older-revision template creates is `Critical` |
| LegacyTemplates.LegacyAgreesWithCurrent | src/Drexel.Loggers/Templates/LogEventTemplate.cs:210-229 | the older revision produces exactly what the current one does for a template with the same fields |
| NonNullLists.FirstNull | src/Drexel.Loggers/NonNullList.cs:111-119 | the index of the first null in the source, or its length when there is none |
| NonNullLists.Unwrap | src/Drexel.Loggers/NonNullList.cs:120 | the items of a null-free source, in order |
| NonNullLists.Wrap | src/Drexel.Loggers/NonNullList.cs:160 | the items seen as a nullable sequence, in order |
| NonNullLists.Empty | src/Drexel.Loggers/NonNullList.cs:25-28 | a new list is empty |
| NonNullLists.WithCapacity | src/Drexel.Loggers/NonNullList.cs:39-42 | a negative capacity throws `ArgumentOutOfRangeException("capacity")`; otherwise the list is empty |
| NonNullLists.FromSource | src/Drexel.Loggers/NonNullList.cs:101-123 | a null source throws naming its parameter; then a negative capacity throws; then the first null item throws `ArgumentException` with its index; otherwise every item is copied in order |
| NonNullLists.FromParams | src/Drexel.Loggers/NonNullList.cs:56-59 | the same checks under the name "itemParams"; otherwise the list holds the items |
| NonNullLists.FromCollection | src/Drexel.Loggers/NonNullList.cs:73-76 | the same checks under the name "collection" |
| NonNullLists.FromEnumerable | src/Drexel.Loggers/NonNullList.cs:96-99 | the same checks under the name "enumerable", with the given capacity |
| NonNullLists.Get | src/Drexel.Loggers/NonNullList.cs:126 | an index outside the list throws `ArgumentOutOfRangeException`; otherwise the item there |
| NonNullLists.Add | src/Drexel.Loggers/NonNullList.cs:153-157 | a null item throws `ArgumentNullException("item")`; otherwise the item is appended and the count grows by one |
| NonNullLists.FirstNullIsFirst | src/Drexel.Loggers/NonNullList.cs:111-119 | the first null is the only index with every earlier item present and a null or the end at it |
| NonNullLists.UnwrapUnique | src/Drexel.Loggers/NonNullList.cs:120 | the copied items are determined by the source |
| NonNullLists.WrapRoundTrip | src/Drexel.Loggers/NonNullList.cs:101-123 | a list's own items contain no null and copy back to themselves |
| NonNullLists.NullItemMessageInjective | src/Drexel.Loggers/NonNullList.cs:115-117 | different indices give different messages |
| NonNullLists.AddThenGet | src/Drexel.Loggers/NonNullList.cs:126-157 | after `Add(x)` the last item is `x` and every earlier item is unchanged |
| NonNullLists.FirstNullAfterPrefix | src/Drexel.Loggers/NonNullList.cs:111-119 | a null after a run of present items is reported at that run's length |
| ResultEvents.NewResultEvent | src/Drexel.Loggers/Results/ResultEvent.cs:97-101 | a null event throws `ArgumentNullException("event")`; otherwise the event and tag are stored |
| ResultEvents.Operation | src/Drexel.Loggers/Results/ResultEvent.cs:111-132 | `onError` is checked for null before `onInformational`; then exactly the delegate matching the tag runs |
| ResultEvents.OperationValue | src/Drexel.Loggers/Results/ResultEvent.cs:138-159 | the same null checks, then the matching delegate's result is returned |
| ResultEvents.OperationValueAsWritten | src/Drexel.Loggers/Results/ResultEvent.cs:65-70 | the non-generic value-returning overload always throws `NotImplementedException` |
| ResultEvents.ExactlyOneDelegateRuns | src/Drexel.Loggers/Results/ResultEvent.cs:38-59 | exactly one delegate runs, once, and it is `onError` exactly for an error |
| ResultEvents.NullDelegateRunsNothing | src/Drexel.Loggers/Results/ResultEvent.cs:42-49 | a missing delegate throws before either runs |
| ResultEvents.OperationValueIsOperation | src/Drexel.Loggers/Results/ResultEvent.cs:192-213 | the value form is the action form with a delegate that ignores the incoming state |
| ResultEvents.OperationValueAsWrittenNeverAnswers | src/Drexel.Loggers/Results/ResultEvent.cs:65-70 | where the generic overload answers 1, the non-generic one throws |
| ActionResults.ErrorsOf | src/Drexel.Loggers/Results/IActionResult.cs:31-42 | the error-tagged events, no more than the input holds |
| ActionResults.InformationalsOf | src/Drexel.Loggers/Results/IActionResult.cs:44-54 | the informational-tagged events, no more than the input holds |
| ActionResults.New | src/Drexel.Loggers/Results/ActionResult.cs:16-36 | a new result has empty lists, succeeds unless asked not to, and is consistent |
| ActionResults.AddError | src/Drexel.Loggers/Results/ActionResult.cs:71-85 | a null error throws `ArgumentNullException("error")`; otherwise the result fails and the tagged event is appended to `AllEvents` and `Errors` only |
| ActionResults.AddInformational | src/Drexel.Loggers/Results/ActionResult.cs:99-111 | a null event throws; otherwise it is appended to `AllEvents` and `Informationals`, and the flag and `Errors` are unchanged |
| ActionResults.Absorb | src/Drexel.Loggers/Results/ActionResult.cs:141-155 | `All` appends all three lists; `Errors` appends the errors to `AllEvents` and `Errors`; `Informationals` does the same for informationals; any other value appends nothing |
| ActionResults.AddResult | src/Drexel.Loggers/Results/ActionResult.cs:131-160 | a null result throws `ArgumentNullException("result")`; otherwise the selected lists are appended and the flags are ANDed under every category |
| ActionResults.AddResultWithValue | src/Drexel.Loggers/Results/ActionResult.cs:195-227 | as `AddResult`, and the `out` value is the sub-result's value when it has one, otherwise `default` |
| ActionResults.ErrorsOfAppend | src/Drexel.Loggers/Results/ActionResult.cs:141-145 | filtering a concatenation filters each part |
| ActionResults.InformationalsOfAppend | src/Drexel.Loggers/Results/ActionResult.cs:141-145 | the same for informationals |
| ActionResults.FiltersAreIdempotent | src/Drexel.Loggers/Results/ActionResult.cs:146-155 | filtering twice is filtering once, and the other filter of a filtered list is empty |
| ActionResults.FiltersPartition | src/Drexel.Loggers/Results/IActionResult.cs:26-29 | `AllEvents` splits exactly into errors and informationals |
| ActionResults.AddErrorKeepsConsistent | src/Drexel.Loggers/Results/ActionResult.cs:71-85 | `AddError` keeps `Errors` and `Informationals` the tagged parts of `AllEvents`, and a successful result free of errors |
| ActionResults.AddInformationalKeepsConsistent | src/Drexel.Loggers/Results/ActionResult.cs:99-111 | the same for `AddInformational` |
| ActionResults.AbsorbKeepsLists | src/Drexel.Loggers/Results/ActionResult.cs:141-155 | absorbing under any category keeps the two lists the tagged parts of `AllEvents` |
| ActionResults.AddResultKeepsConsistent | src/Drexel.Loggers/Results/ActionResult.cs:131-160 | absorbing a consistent result keeps the result consistent under every category |
| ActionResults.SuccessIsMonotone | src/Drexel.Loggers/Results/ActionResult.cs:157 | no call turns a failed result back into a successful one |
| ActionResults.UnsuccessfulSubResultPoisons | src/Drexel.Loggers/Results/ActionResult.cs:157 | an explicitly unsuccessful empty sub-result fails the parent under every category and adds no events |
| ActionResults.RunKeepsConsistent | src/Drexel.Loggers/Results/ActionResult.cs:71-160 | any sequence of calls keeps a result consistent, and it can end successful only if it began so |
| ActionResults.RunOnlyAppends | src/Drexel.Loggers/Results/ActionResult.cs:71-160 | every list before a sequence of calls is a prefix of the list after it |
| FuncResults.New | src/Drexel.Loggers/Results/FuncResult.cs:37-43 | a new result has no events and no value, and is valid |
| FuncResults.AddError | src/Drexel.Loggers/Results/FuncResult.cs:54-58 | the accumulator's `AddError`, with the value untouched |
| FuncResults.AddInformational | src/Drexel.Loggers/Results/FuncResult.cs:61-65 | the accumulator's `AddInformational`, with the value untouched |
| FuncResults.AddResult | src/Drexel.Loggers/Results/FuncResult.cs:68-72 | the accumulator's `AddResult` with every category, with the value untouched |
| FuncResults.AddResultWithValue | src/Drexel.Loggers/Results/FuncResult.cs:84-88 | the same, handing back what the sub-result's `GetValue` reports |
| FuncResults.GetValue | src/Drexel.Loggers/Results/FuncResult.cs:90-91 | reports `HasValue`, and the value only when there is one |
| FuncResults.RemoveValue | src/Drexel.Loggers/Results/FuncResult.cs:93-97 | over the corrected container: reports and removes the value, leaving the events alone |
| FuncResults.SetValue | src/Drexel.Loggers/Results/FuncResult.cs:99-103 | reports the old value and stores the new one, leaving the events alone |
| FuncResults.TryAddValue | src/Drexel.Loggers/Results/FuncResult.cs:105-109 | over the corrected container: an occupied result is unchanged; an empty one then reads back the value |
| FuncResults.OperationsKeepValid | src/Drexel.Loggers/Results/FuncResult.cs:54-109 | every operation keeps the events consistent and the container clean |
| FuncResults.AbsorbingInformationalKeepsSuccess | src/Drexel.Loggers/Results/FuncResult.cs:68-72 | absorbing a successful result with one informational stays successful and lists the event as informational only |
| FuncResults.AbsorbingErrorFails | src/Drexel.Loggers/Results/FuncResult.cs:68-72 | absorbing a result with one error fails and lists the event as an error only |
| FuncResults.AbsorbingExplicitFailureFails | src/Drexel.Loggers/Results/FuncResult.cs:68-72 | absorbing an explicitly unsuccessful empty result fails, and the lists stay empty |
| FuncResults.AddResultWithValueReadsSubValue | src/Drexel.Loggers/Results/FuncResult.cs:84-88 | the value handed out is what the sub-result's `GetValue` reports, and after `SetValue(w)` it is `w` |
| ValueResults.New | src/Drexel.Loggers/Results/ValueResult.cs:37-46 | a new result has no events and no value, and its `Value` is `default` |
| ValueResults.AddValue | src/Drexel.Loggers/Results/ValueResult.cs:208-217 | an occupied result throws `InvalidOperationException`; otherwise it then holds the value, with the events untouched |
| ValueResults.RemoveValue | src/Drexel.Loggers/Results/ValueResult.cs:229-237 | returns whether there was a value and reports it, then has no value and a `default` slot |
| ValueResults.SetValue | src/Drexel.Loggers/Results/ValueResult.cs:251-258 | returns whether there was a value, reports it, and then holds the new value |
| ValueResults.TryAddValueAsWritten | src/Drexel.Loggers/Results/ValueResult.cs:269-278 | as written, an empty result stores the value and returns true but keeps `HasValue` false |
| ValueResults.TryAddValue | src/Drexel.Loggers/Results/ValueResult.cs:269-278 | corrected: an occupied result is unchanged; an empty one then reads back the value |
| ValueResults.EventOperationsAreActionResults | src/Drexel.Loggers/Results/ValueResult.cs:79-197 | the event operations behave as the accumulator's with every category, leave the value alone, and `AddResult<T>` hands out the sub-result's value or `default` |
| ValueResults.InlineAgreesWithContainer | src/Drexel.Loggers/Results/ValueResult.cs:208-278 | with no stale value, the inline value operations agree with the container-backed ones |
| ValueResults.RemoveUndoesAdd | src/Drexel.Loggers/Results/ValueResult.cs:208-237 | removing a value just added hands it back and restores the new result |
| ValueResults.TryAddValueAsWrittenHidesValue | src/Drexel.Loggers/Results/ValueResult.cs:276 | the as-written `TryAddValue` succeeds, yet the result reads as empty and a later `AddValue` overwrites silently; after the corrected one that `AddValue` throws |
| TryResults.New | src/Drexel.Loggers/Results/TryResult.cs:29-33 | a new result has empty lists, succeeds unless asked not to, and is balanced |
| TryResults.AddError | src/Drexel.Loggers/Results/TryResult.cs:66-79 | a null error throws; otherwise the result fails and the event is appended to `AllEvents` and `Errors` |
| TryResults.AddInformational | src/Drexel.Loggers/Results/TryResult.cs:93-104 | a null event throws; otherwise it is appended to `AllEvents` and `Informationals`, and the flag is unchanged |
| TryResults.AddResult | src/Drexel.Loggers/Results/TryResult.cs:121-135 | a null result throws; otherwise the three lists are appended as blocks and the flags ANDed |
| TryResults.AddResultWithValue | src/Drexel.Loggers/Results/TryResult.cs:156-173 | as `AddResult`, and the `out` is the sub-result's `Value` whatever its flag |
| TryResults.EraseCommutes | src/Drexel.Loggers/Results/TryResult.cs:29-135 | forgetting the tags turns each `ActionResult` operation into the same `TryResult` operation |
| TryResults.SplitByTag | src/Drexel.Loggers/Results/TryResult.cs:39-49 | untagged, `AllEvents` is the multiset union of the errors and the informationals |
| TryResults.ErasedConsistentIsBalanced | src/Drexel.Loggers/Results/TryResult.cs:39-49 | a consistent tagged result erases to a balanced untagged one |
| TryResults.OperationsKeepBalanced | src/Drexel.Loggers/Results/TryResult.cs:66-173 | every operation keeps a balanced result balanced, and none makes a failed result succeed |
| TryResults.ValueCopiedFromFailedSubResult | src/Drexel.Loggers/Results/TryResult.cs:165-166 | the value is copied even from a failed sub-result |

## Left out

- Thread safety. `ValueContainer` takes a per-instance lock and the registries are
  `ConcurrentDictionary`s. Each operation is modelled as one atomic step.
- Culture-aware collation and `CompareOptions` in `LocalizableString`. Texts are compared
  ordinally, and `CompareOrdinal` returns only -1, 0 or 1, where .NET returns any sign-carrying
  `int`. Any culture-based `Equals` or `CompareTo` result inherits that simplification.
- `CultureInfo` is an opaque identifier (`Localization.Culture`). Its parent-culture chain is not
  consulted, and the source does not consult it either.
- `Equals(object)`, `GetHashCode` on strings, and the runtime type tests (`obj is T`) are not
  modelled: they need .NET runtime types and the string hash.
- Debugger display strings, the implicit `bool` conversions and `!` operators, and the
  `ILogEventLogger` interface are not modelled. They carry no behaviour beyond reading `Success`,
  or are interfaces with no body.
- The generic `TryResult<T>` is left out. Its body opens with an incomplete field declaration
  (`private bool` with no name), so it does not compile as written. Only the non-generic
  `TryResult` is modelled, with the sub-result's value passed alongside (`TryResults.Valued`).
- Subclasses supplying their own `CreateInternal` (the abstract template with its own event type)
  and `EventData<TUserDefined>` are left out. Only the sealed `LogEventTemplate` that builds
  `LogEvent`s is modelled.
- An exception's live object and its reflected `Type` are reduced to a message, a stack trace and
  a type name. A parameter's value is reduced to its rendering.
- The `InvalidOperationException` branches for an "illegally null" template code, message or
  event are not modelled. A constructed template's code and message are never null, and the
  sealed `CreateInternal` never returns null.
- The text `ArgumentException` appends to its message ("(Parameter 'x')") is not modelled; the
  failure keeps the message and the parameter name apart.
- `ValueContainers.RemoveValue`, `FuncResults.RemoveValue`: require the container to hold
  `default` whenever it has no value (`ValueContainers.Clean`). Every corrected operation
  preserves this, so only the as-written bodies can break it, and those are modelled separately.
- `Localization.Equals`, `Localization.CompareTo`, `Localization.Resolve`, `Localization.OpEquals`,
  `Localization.OpNotEquals`: require valid strings (the preferred culture has an entry), which
  the interface guarantees and `Localization.FromMap` enforces. The as-written failure on an
  invalid string is `Localization.ToStringAsWritten`.
- `EventCodes.CreateCode`: requires a non-null group to be registered. In the source every group
  object exists only because its constructor succeeded in registering it.
- `EventCodes.CodeHash` and `EventCodes.CodeToString` carry no contract of their own. Their
  meaning is stated by `EventCodes.CodeHashDecodes`, `EventCodes.CodeHashInjective` and
  `EventCodes.CodeToStringRoundTrip`.
- When both the map and the preferred culture are null, the repository's `LocalizableString`
  unit tests expect the map constructor to name "localizations". The code checks the preferred culture first, and the model follows
  the code (`Localization.FromMapAsWritten`).
- `FuncResults.RemoveValue`, `FuncResults.TryAddValue`, `ValueContainers.AddValue`: modelled
  over the corrected container. `FuncResult` (FuncResult.cs:96-97 and 108-109) and the `AddValue`
  extension (ValueContainerExtensions.cs:35) forward straight to `ValueContainer`, so as written
  they inherit the bodies at ValueContainer.cs:23-27 and 67-71: `TryAddValue(5)` on an empty
  result returns true and `GetValue` then reports no value. The model does not promise the
  as-written behaviour of these three; the container-level halves are
  `ValueContainers.RemoveValueAsWritten` and `ValueContainers.TryAddValueAsWritten`.
- `RemoveValue()`, `SetValue(T)` and `TryAddValue(T)` without an `out` are declared by
  `IValueContainer` but not defined by `ValueContainer`, which therefore does not compile as
  written; `FuncResult` (FuncResult.cs:93-106) and `AddValue` call them. The model reads each as
  the `out` overload with the `out` discarded.
- The sample program and the test helpers are not modelled.

## Findings

| source | as written | input that shows it | evidently intended | confidence | as-written member | corrected member |
|---|---|---|---|---|---|---|
| src/Drexel.Loggers/Results/ValueContainer.cs:23-27 | `RemoveValue` clears `Value` but never sets `HasValue` to false | a container holding 5; after `RemoveValue`, `GetValue` returns true with `default`; the same through `FuncResult.RemoveValue` (FuncResult.cs:96-97) | `HasValue` is false after a removal, as the interface documents | high, not executed | ValueContainers.RemoveValueAsWritten | ValueContainers.RemoveValue |
| src/Drexel.Loggers/Results/ValueContainer.cs:67-71 | `TryAddValue` stores the value but never sets `HasValue` | an empty container; `TryAddValue(5)` returns true, and `GetValue` then returns false; the same through `FuncResult.TryAddValue` (FuncResult.cs:108-109), and `AddValue` (ValueContainerExtensions.cs:35) then succeeds twice | the container holds the value afterwards, so a second `TryAddValue` returns false | high, not executed | ValueContainers.TryAddValueAsWritten | ValueContainers.TryAddValue |
| src/Drexel.Loggers/Results/ValueResult.cs:276 | `TryAddValue` stores the value but never sets `HasValue` (also at line 562) | a new `ValueResult`; `TryAddValue(5)` returns true, and a later `AddValue(6)` does not throw | the result holds the value, as its documented return value says | high, not executed | ValueResults.TryAddValueAsWritten | ValueResults.TryAddValue |
| src/Drexel.Loggers/Results/ResultEvent.cs:69 | the non-generic `Operation<T>` only throws `NotImplementedException` | any error event with delegates returning 1 and 2 | return the matching delegate's result after the same null checks | high, not executed | ResultEvents.OperationValueAsWritten | ResultEvents.OperationValue |
| src/Drexel.Loggers/LocalizableString.cs:75-82 | the map constructor accepts a map with no entry for the preferred culture | preferred culture "fr" with the map {"de": "Hallo"}; the parameterless `ToString` throws `KeyNotFoundException` | construction guarantees the entry the interface promises | medium, not executed | Localization.FromMapAsWritten | Localization.FromMap |
