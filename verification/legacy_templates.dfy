/** The older template revision (namespace `Drexel.Loggers.Templates`). Its constructor takes no
    severity and its `Severity` property is never assigned, so it always reads as
    `default(EventSeverity)`, which is `Critical`. Its `Create` overloads take the per-call arguments
    directly instead of an `EventData`. */
module LegacyTemplates {
  import opened Common
  import EventCodes
  import Events

  datatype LegacyTemplate = LegacyTemplate(
    code: EventCodes.Code,
    message: Events.Text,
    severity: Events.Severity,
    defaultReason: Option<Events.Text>,
    defaultSuggestions: Option<seq<Events.Text>>)

  /** `new LogEventTemplate(code, message, defaultReason, defaultSuggestions)`: code, then message,
      are required; the severity is left at its default. */
  function NewLegacyTemplate(
    code: Option<EventCodes.Code>,
    message: Option<Events.Text>,
    defaultReason: Option<Events.Text>,
    defaultSuggestions: Option<seq<Events.Text>>): (r: Result<LegacyTemplate>)
    ensures code.None? ==> r == Err(ArgumentNull("code"))
    ensures code.Some? && message.None? ==> r == Err(ArgumentNull("message"))
    ensures code.Some? && message.Some? ==>
      r.Ok? && r.value.code == code.value && r.value.message == message.value &&
      r.value.defaultReason == defaultReason && r.value.defaultSuggestions == defaultSuggestions
    ensures r.Ok? ==> r.value.severity == Events.Critical
  {
    if code.None? then Err(ArgumentNull("code"))
    else if message.None? then Err(ArgumentNull("message"))
    else Ok(LegacyTemplate(code.value, message.value, Events.Critical, defaultReason, defaultSuggestions))
  }

  /** `template.Create(reason, suggestions, parameters, innerEvents)`. */
  function Create(
    t: LegacyTemplate,
    reason: Option<Events.Text>,
    suggestions: Option<seq<Events.Text>>,
    parameters: Option<seq<Events.Parameter>>,
    innerEvents: Option<seq<Events.LogEvent>>): (e: Events.LogEvent)
    ensures e.severity == t.severity && e.info.code == t.code && e.info.message == t.message
    ensures e.info.reason == Coalesce(reason, t.defaultReason)
    ensures e.info.suggestions == Coalesce(suggestions, t.defaultSuggestions).OrElse([])
    ensures e.info.parameters == parameters.OrElse([]) && e.innerEvents == innerEvents.OrElse([])
    ensures e.exception == None
  {
    Events.CreateInternal(None, t.code, t.severity, t.message,
      Coalesce(reason, t.defaultReason), Coalesce(suggestions, t.defaultSuggestions), parameters, innerEvents)
  }

  /** `template.Create<TException>(exception, reason, suggestions, parameters, innerEvents)`. */
  function CreateWithException(
    t: LegacyTemplate,
    exceptionType: string,
    exception: Option<Events.Exception>,
    reason: Option<Events.Text>,
    suggestions: Option<seq<Events.Text>>,
    parameters: Option<seq<Events.Parameter>>,
    innerEvents: Option<seq<Events.LogEvent>>): (e: Events.LogEvent)
    ensures e.exception.Some? <==> exception.Some?
    ensures exception.Some? ==> e.exception == Some(Events.ExceptionInfo(exceptionType, exception.value))
    ensures e.(exception := None) == Create(t, reason, suggestions, parameters, innerEvents)
  {
    var info := if exception.None? then None else Some(Events.CaptureException(exceptionType, exception).value);
    Events.CreateInternal(info, t.code, t.severity, t.message,
      Coalesce(reason, t.defaultReason), Coalesce(suggestions, t.defaultSuggestions), parameters, innerEvents)
  }

  /** Every event an older-revision template produces is `Critical`, with or without an exception. */
  lemma LegacyEventsAreCritical(
    code: EventCodes.Code, message: Events.Text,
    defaultReason: Option<Events.Text>, defaultSuggestions: Option<seq<Events.Text>>,
    reason: Option<Events.Text>, suggestions: Option<seq<Events.Text>>,
    parameters: Option<seq<Events.Parameter>>, innerEvents: Option<seq<Events.LogEvent>>,
    exceptionType: string, exception: Option<Events.Exception>)
    ensures NewLegacyTemplate(Some(code), Some(message), defaultReason, defaultSuggestions).Ok?
    ensures Create(NewLegacyTemplate(Some(code), Some(message), defaultReason, defaultSuggestions).value,
                   reason, suggestions, parameters, innerEvents).severity == Events.Critical
    ensures CreateWithException(NewLegacyTemplate(Some(code), Some(message), defaultReason, defaultSuggestions).value,
                   exceptionType, exception, reason, suggestions, parameters, innerEvents).severity == Events.Critical
  {
  }

  /** The older revision produces exactly what the current one does for a `Critical` template with
      the same code, message and defaults. */
  lemma LegacyAgreesWithCurrent(
    t: LegacyTemplate,
    reason: Option<Events.Text>, suggestions: Option<seq<Events.Text>>,
    parameters: Option<seq<Events.Parameter>>, innerEvents: Option<seq<Events.LogEvent>>)
    ensures Events.Create(Events.Template(t.code, t.severity, t.message, t.defaultReason, t.defaultSuggestions),
                          Some(Events.EventData(reason, suggestions, parameters, innerEvents)))
         == Ok(Create(t, reason, suggestions, parameters, innerEvents))
  {
  }
}
