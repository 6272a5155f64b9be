/** Log events and the templates that produce them (`EventInfo`, `LogEvent`, `LogEventTemplate`, and the
    `Create` extension methods). Every constructor is a pure function from nullable arguments to the
    built record or the exception it throws; defaulting is argument `??` template default, and null
    collections become empty ones. */
module Events {
  import opened Common
  import EventCodes
  import Localization

  /** `EventSeverity`, in declaration order: `Critical` is `default(EventSeverity)`. */
  datatype Severity = Critical | Error | Warning | Information | Debug

  /** `EventMessage`, `EventReason` and `EventSuggestion` are localizable strings and nothing more. */
  type Text = Localization.LocalizableString

  /** `EventParameter`: a name and an arbitrary, possibly null, value (represented by its rendering). */
  datatype Parameter = Parameter(name: string, value: Option<string>)

  /** A thrown exception, as far as events see it. */
  datatype Exception = Exception(message: string, stackTrace: string)

  /** `EventExceptionInfo<T>`: the exception together with the static type it was captured under. */
  datatype ExceptionInfo = ExceptionInfo(exceptionType: string, exception: Exception)

  datatype EventInfo = EventInfo(
    code: EventCodes.Code,
    message: Text,
    reason: Option<Text>,
    suggestions: seq<Text>,
    parameters: seq<Parameter>)

  datatype LogEvent = LogEvent(
    severity: Severity,
    info: EventInfo,
    exception: Option<ExceptionInfo>,
    innerEvents: seq<LogEvent>)

  /** `EventData`: the per-call arguments, each of which may be null. */
  datatype EventData = EventData(
    reason: Option<Text>,
    suggestions: Option<seq<Text>>,
    parameters: Option<seq<Parameter>>,
    innerEvents: Option<seq<LogEvent>>)

  /** `LogEventTemplate`: the fixed code, severity and message, and the optional defaults. */
  datatype Template = Template(
    code: EventCodes.Code,
    severity: Severity,
    message: Text,
    defaultReason: Option<Text>,
    defaultSuggestions: Option<seq<Text>>)

  /** `new EventParameter(name, value)`: the name is required. */
  function NewParameter(name: Option<string>, value: Option<string>): (r: Result<Parameter>)
    ensures name.None? <==> r == Err(ArgumentNull("name"))
    ensures name.Some? ==> r.Ok? && r.value.name == name.value && r.value.value == value
  {
    match name
    case None => Err(ArgumentNull("name"))
    case Some(n) => Ok(Parameter(n, value))
  }

  /** `EventExceptionInfo.Create<T>(exception)`: the exception is required. */
  function CaptureException(exceptionType: string, exception: Option<Exception>): (r: Result<ExceptionInfo>)
    ensures exception.None? <==> r == Err(ArgumentNull("exception"))
    ensures exception.Some? ==> r == Ok(ExceptionInfo(exceptionType, exception.value))
  {
    match exception
    case None => Err(ArgumentNull("exception"))
    case Some(e) => Ok(ExceptionInfo(exceptionType, e))
  }

  /** `new EventInfo(code, message, reason, suggestions, parameters)`: code, then message, are
      required; the reason is kept as given, even when null; null lists become empty. */
  function NewEventInfo(
    code: Option<EventCodes.Code>,
    message: Option<Text>,
    reason: Option<Text>,
    suggestions: Option<seq<Text>>,
    parameters: Option<seq<Parameter>>): (r: Result<EventInfo>)
    ensures code.None? ==> r == Err(ArgumentNull("code"))
    ensures code.Some? && message.None? ==> r == Err(ArgumentNull("message"))
    ensures code.Some? && message.Some? ==> r.Ok?
    ensures r.Ok? ==>
      && r.value.code == code.value
      && r.value.message == message.value
      && r.value.reason == reason
      && (suggestions.None? ==> r.value.suggestions == [])
      && (suggestions.Some? ==> r.value.suggestions == suggestions.value)
      && (parameters.None? ==> r.value.parameters == [])
      && (parameters.Some? ==> r.value.parameters == parameters.value)
  {
    if code.None? then Err(ArgumentNull("code"))
    else if message.None? then Err(ArgumentNull("message"))
    else Ok(EventInfo(code.value, message.value, reason, suggestions.OrElse([]), parameters.OrElse([])))
  }

  /** `new LogEvent(severity, info, exception, innerEvents)`: info is required, null inner events
      become empty, everything else is stored as given. */
  function NewLogEvent(
    severity: Severity,
    info: Option<EventInfo>,
    exception: Option<ExceptionInfo>,
    innerEvents: Option<seq<LogEvent>>): (r: Result<LogEvent>)
    ensures info.None? <==> r == Err(ArgumentNull("info"))
    ensures info.Some? ==>
      && r.Ok?
      && r.value.severity == severity
      && r.value.info == info.value
      && r.value.exception == exception
      && (innerEvents.None? ==> r.value.innerEvents == [])
      && (innerEvents.Some? ==> r.value.innerEvents == innerEvents.value)
  {
    match info
    case None => Err(ArgumentNull("info"))
    case Some(i) => Ok(LogEvent(severity, i, exception, innerEvents.OrElse([])))
  }

  /** `new LogEventTemplate(code, severity, message, defaultReason, defaultSuggestions)`: code, then
      message, are required; every field is stored as given. */
  function NewTemplate(
    code: Option<EventCodes.Code>,
    severity: Severity,
    message: Option<Text>,
    defaultReason: Option<Text>,
    defaultSuggestions: Option<seq<Text>>): (r: Result<Template>)
    ensures code.None? ==> r == Err(ArgumentNull("code"))
    ensures code.Some? && message.None? ==> r == Err(ArgumentNull("message"))
    ensures code.Some? && message.Some? ==>
      r == Ok(Template(code.value, severity, message.value, defaultReason, defaultSuggestions))
  {
    if code.None? then Err(ArgumentNull("code"))
    else if message.None? then Err(ArgumentNull("message"))
    else Ok(Template(code.value, severity, message.value, defaultReason, defaultSuggestions))
  }

  /** `LogEventTemplate.CreateInternal`: the event the sealed template builds from resolved
      arguments. */
  function CreateInternal(
    exception: Option<ExceptionInfo>,
    code: EventCodes.Code,
    severity: Severity,
    message: Text,
    reason: Option<Text>,
    suggestions: Option<seq<Text>>,
    parameters: Option<seq<Parameter>>,
    innerEvents: Option<seq<LogEvent>>): (e: LogEvent)
    ensures e.severity == severity && e.exception == exception && e.innerEvents == innerEvents.OrElse([])
    ensures e.info.code == code && e.info.message == message && e.info.reason == reason
    ensures e.info.suggestions == suggestions.OrElse([]) && e.info.parameters == parameters.OrElse([])
  {
    var info := NewEventInfo(Some(code), Some(message), reason, suggestions, parameters).value;
    NewLogEvent(severity, Some(info), exception, innerEvents).value
  }

  /** True when `e` is what template `t` builds for `data` with the given exception info: the
      template fixes code, severity and message; the reason and suggestions fall back on the
      template's defaults only when the call's are null; parameters and inner events pass through. */
  predicate Produces(t: Template, data: EventData, exception: Option<ExceptionInfo>, e: LogEvent)
  {
    && e.severity == t.severity
    && e.info.code == t.code
    && e.info.message == t.message
    && e.info.reason == Coalesce(data.reason, t.defaultReason)
    && e.info.suggestions == Coalesce(data.suggestions, t.defaultSuggestions).OrElse([])
    && e.info.parameters == data.parameters.OrElse([])
    && e.innerEvents == data.innerEvents.OrElse([])
    && e.exception == exception
  }

  /** `template.Create(data)`: null data throws; otherwise the event carries no exception. */
  function Create(t: Template, data: Option<EventData>): (r: Result<LogEvent>)
    ensures data.None? <==> r == Err(ArgumentNull("data"))
    ensures data.Some? ==> r.Ok? && Produces(t, data.value, None, r.value)
  {
    match data
    case None => Err(ArgumentNull("data"))
    case Some(d) =>
      Ok(CreateInternal(None, t.code, t.severity, t.message,
        Coalesce(d.reason, t.defaultReason), Coalesce(d.suggestions, t.defaultSuggestions),
        d.parameters, d.innerEvents))
  }

  /** `template.Create<TException>(data, exception)`: null data throws; the event carries exception
      info exactly when an exception was given, captured under `exceptionType`. */
  function CreateWithException(t: Template, data: Option<EventData>, exceptionType: string, exception: Option<Exception>)
    : (r: Result<LogEvent>)
    ensures data.None? <==> r == Err(ArgumentNull("data"))
    ensures data.Some? && exception.None? ==> r.Ok? && Produces(t, data.value, None, r.value)
    ensures data.Some? && exception.Some? ==>
      r.Ok? && Produces(t, data.value, Some(ExceptionInfo(exceptionType, exception.value)), r.value)
  {
    match data
    case None => Err(ArgumentNull("data"))
    case Some(d) =>
      var info := if exception.None? then None else Some(CaptureException(exceptionType, exception).value);
      Ok(CreateInternal(info, t.code, t.severity, t.message,
        Coalesce(d.reason, t.defaultReason), Coalesce(d.suggestions, t.defaultSuggestions),
        d.parameters, d.innerEvents))
  }

  /** The `Create(reason, suggestions, parameters, innerEvents)` extension: a null template throws;
      otherwise the arguments are packed into one `EventData` and forwarded. */
  function CreateFrom(
    template: Option<Template>,
    reason: Option<Text>,
    suggestions: Option<seq<Text>>,
    parameters: Option<seq<Parameter>>,
    innerEvents: Option<seq<LogEvent>>): (r: Result<LogEvent>)
    ensures template.None? ==> r == Err(ArgumentNull("template"))
    ensures template.Some? ==> r == Create(template.value, Some(EventData(reason, suggestions, parameters, innerEvents)))
  {
    match template
    case None => Err(ArgumentNull("template"))
    case Some(t) => Create(t, Some(EventData(reason, suggestions, parameters, innerEvents)))
  }

  /** The `Create(exception, reason, suggestions, parameters, innerEvents)` extension. */
  function CreateFromWithException(
    template: Option<Template>,
    exceptionType: string,
    exception: Option<Exception>,
    reason: Option<Text>,
    suggestions: Option<seq<Text>>,
    parameters: Option<seq<Parameter>>,
    innerEvents: Option<seq<LogEvent>>): (r: Result<LogEvent>)
    ensures template.None? ==> r == Err(ArgumentNull("template"))
    ensures template.Some? ==>
      r == CreateWithException(template.value, Some(EventData(reason, suggestions, parameters, innerEvents)),
                               exceptionType, exception)
  {
    match template
    case None => Err(ArgumentNull("template"))
    case Some(t) =>
      CreateWithException(t, Some(EventData(reason, suggestions, parameters, innerEvents)), exceptionType, exception)
  }

  // ---------------------------------------------------------------------------------------------
  // Properties.

  /** Rebuilding an `EventInfo` from its own fields gives it back: the constructor loses nothing. */
  lemma EventInfoRoundTrip(i: EventInfo)
    ensures NewEventInfo(Some(i.code), Some(i.message), i.reason, Some(i.suggestions), Some(i.parameters)) == Ok(i)
  {
  }

  /** Passing empty lists or null lists builds the same `EventInfo`. */
  lemma EventInfoNullListsAreEmpty(code: EventCodes.Code, message: Text, reason: Option<Text>)
    ensures NewEventInfo(Some(code), Some(message), reason, None, None)
         == NewEventInfo(Some(code), Some(message), reason, Some([]), Some([]))
  {
  }

  /** Rebuilding a `LogEvent` from its own fields gives it back; null inner events mean none. */
  lemma LogEventRoundTrip(e: LogEvent)
    ensures NewLogEvent(e.severity, Some(e.info), e.exception, Some(e.innerEvents)) == Ok(e)
    ensures NewLogEvent(e.severity, Some(e.info), e.exception, None) == NewLogEvent(e.severity, Some(e.info), e.exception, Some([]))
  {
  }

  /** A constructed template never fails to create an event from non-null data, and the severity
      and code of every event it produces are its own, whatever the call passes. */
  lemma TemplateFixesSeverityAndCode(
    code: EventCodes.Code, severity: Severity, message: Text,
    defaultReason: Option<Text>, defaultSuggestions: Option<seq<Text>>, d: EventData)
    ensures NewTemplate(Some(code), severity, Some(message), defaultReason, defaultSuggestions).Ok?
    ensures Create(NewTemplate(Some(code), severity, Some(message), defaultReason, defaultSuggestions).value, Some(d)).Ok?
    ensures Create(NewTemplate(Some(code), severity, Some(message), defaultReason, defaultSuggestions).value, Some(d)).value.severity == severity
    ensures Create(NewTemplate(Some(code), severity, Some(message), defaultReason, defaultSuggestions).value, Some(d)).value.info.code == code
  {
  }

  /** Explicitly passing no suggestions (an empty, non-null list) overrides the template's default
      suggestions; passing null takes them. */
  lemma EmptySuggestionsOverrideDefault(t: Template, d: EventData)
    requires t.defaultSuggestions.Some? && t.defaultSuggestions.value != []
    ensures Create(t, Some(d.(suggestions := Some([])))).value.info.suggestions == []
    ensures Create(t, Some(d.(suggestions := None))).value.info.suggestions == t.defaultSuggestions.value
  {
  }

  /** The exception-less overload is the exception overload with a null exception. */
  lemma CreateIsCreateWithoutException(t: Template, data: Option<EventData>, exceptionType: string)
    ensures CreateWithException(t, data, exceptionType, None) == Create(t, data)
  {
  }

  /** Exception info is present exactly when an exception was supplied, and it is that exception;
      the event is otherwise the same as without one. */
  lemma ExceptionInfoPresentIffSupplied(t: Template, d: EventData, exceptionType: string, exception: Option<Exception>)
    ensures CreateWithException(t, Some(d), exceptionType, exception).Ok?
    ensures CreateWithException(t, Some(d), exceptionType, exception).value.exception.Some? <==> exception.Some?
    ensures exception.Some? ==>
      CreateWithException(t, Some(d), exceptionType, exception).value.exception.value.exception == exception.value
    ensures CreateWithException(t, Some(d), exceptionType, exception).value.(exception := None) == Create(t, Some(d)).value
  {
  }

  /** Omitting every optional extension argument lets all template defaults apply. */
  lemma OmittedArgumentsUseDefaults(t: Template)
    ensures CreateFrom(Some(t), None, None, None, None).Ok?
    ensures CreateFrom(Some(t), None, None, None, None).value.info.reason == t.defaultReason
    ensures CreateFrom(Some(t), None, None, None, None).value.info.suggestions == t.defaultSuggestions.OrElse([])
    ensures CreateFrom(Some(t), None, None, None, None).value.info.parameters == []
    ensures CreateFrom(Some(t), None, None, None, None).value.innerEvents == []
  {
  }

  /** An explicit reason always wins over the template's default. */
  lemma ExplicitReasonWins(t: Template, reason: Text, d: EventData)
    ensures Create(t, Some(d.(reason := Some(reason)))).value.info.reason == Some(reason)
  {
  }
}
