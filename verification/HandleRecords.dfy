/** What each accepted call leaves on its span and asks of the metrics (genai/operation_handle.go,
    genai/tool.go, genai/retrieval.go, genai/invocation.go, genai/callback_failure.go), told by the
    handle and the arguments of the call. */
module HandleRecords {
  import opened Bytes
  import opened Usage
  import opened Outcome
  import opened Cardinality
  import opened Recorder
  import opened Tracking
  import opened Handles
  import opened MetricNames
  import opened RecordedPayloads
  import opened RecordedDocuments
  import BoundedJson
  import JsonDecode
  import Payload
  import Utf8
  import ToolPayload
  import Documents = RetrievalDocuments

  /** A handle that records: started, traced and not yet finished. */
  predicate Recording(h: Handle) { h.started.Some? && h.tracked && !h.finished }

  /** What a finished handle looks like: these events follow on its span, the last one ends it. */
  predicate FinishedWith(h: Handle, after: Handle, events: seq<SpanEvent>)
  {
    after == h.(finished := true, span := h.span + events + [Ended])
  }

  // ----- operations

  /** The outcome of an operation: an error when the caller says so or names a class. */
  function StatusOf(result: OperationResult): Bytes
  {
    if result.errorType != "" || result.status == "error" then "error"
    else if result.status == "ok" then "ok" else "unset"
  }

  function ClassOf(result: OperationResult): Bytes
  {
    if StatusOf(result) != "error" then "" else if result.errorType == "" then "unknown" else result.errorType
  }

  /** What is recorded of the operation: how it was started, the outcome, the answering model and the
      time since the start. */
  function MetaOf(h: Handle, result: OperationResult, now: int): Meta
    requires h.kind.OperationKind? && h.started.Some?
  {
    h.kind.meta.(status := StatusOf(result), errorType := ClassOf(result), responseModel := result.responseModel,
                 duration := now - h.started.value)
  }

  /** The reported usage, for the purpose of the operation unless it names its own. */
  function UsageOf(h: Handle, result: OperationResult): Usage
    requires h.kind.OperationKind?
  {
    if result.usage.purpose == "" then result.usage.(purpose := h.kind.meta.purpose) else result.usage
  }

  /** A finished operation leaves the caller's attributes, its outcome, its interaction with the
      recorded payload and the usage, and an end; a physical one asks the metrics for its usage, its
      duration and its streaming quality, a logical one for nothing. */
  lemma OperationIsRecorded(s: Settings, h: Handle, result: OperationResult, attrs: seq<(Bytes, Bytes)>, panics: bool,
      now: int)
    requires h.kind.OperationKind? && Startable(h.kind) && Recording(h)
    requires Apply(s, h, CallFinishOperation(result, attrs, panics), now).reply == Done
    ensures var step := Apply(s, h, CallFinishOperation(result, attrs, panics), now);
      var meta, usage := MetaOf(h, result, now), UsageOf(h, result);
      && Payload.PayloadAttributes(s.payload, result.payload).Some? && ValidUsage(usage)
      && FinishedWith(h, step.handle,
           (if attrs == [] then [] else [HostAttributes(attrs)])
           + [StatusAttribute(meta.status),
              Interacted(meta, Payload.PayloadAttributes(s.payload, result.payload).value, usage),
              OutcomeSet(meta.status, meta.errorType)])
      && step.writes ==
           if h.kind.logical then []
           else UsageWrites(s.labels, meta, usage) + DurationWrites(s.labels, meta)
                + if result.streaming == None then []
                  else StreamingWrites(s.labels, meta, usage.outputTokens, result.streaming.value, meta.duration)
  {
    hide Startable, ResultAccepted, Payload.PayloadAttributes, PolicyReached, InteractionWrites, StreamingPart,
         CommitOperation, TrackedUsage, UsageWrites, DurationWrites, StreamingWrites;
    var payload := Payload.PayloadAttributes(s.payload, result.payload).value;
    CommitStep(s, h, result, attrs, payload, now);
    AcceptedOutcome(s, h, result, now);
    OperationWrites(s, h, result, now);
  }

  /** What a result must be to be accepted: a known class only with an error, a bounded model name, no
      duration of its own, valid usage in a declared currency, and timings within the recording. */
  lemma ResultIsAcceptable(s: Settings, h: Handle, result: OperationResult, now: int)
    requires h.started.Some?
    ensures ResultAccepted(s, h, result, now) <==>
      && (if result.errorType == "" then result.status in {"", "ok", "error", "unset"}
          else result.errorType in MODEL_ERRORS && result.status in {"", "error"})
      && |result.responseModel| <= 256 && Utf8.Valid(result.responseModel) && result.duration == 0
      && ValidUsage(result.usage)
      && (h.tracked && result.usage.cost.present ==> result.usage.currency in Values(Permitted(s), Currency))
      && (result.streaming.Some? ==>
            && 0 <= result.streaming.value.firstToken <= now - h.started.value
            && (result.streaming.value.present || result.streaming.value.firstToken == 0))
  {
    hide Utf8.Valid, ValidUsage, MODEL_ERRORS, Permitted;
    NoPurposeIsBounded();
  }

  lemma NoPurposeIsBounded()
    ensures forall model :: ModelMetadata(model, "") <==> |model| <= 256 && Utf8.Valid(model)
  {
    assert Utf8.Valid("");
    hide Utf8.Valid;
  }

  lemma AcceptedOutcome(s: Settings, h: Handle, result: OperationResult, now: int)
    requires h.started.Some? && ResultAccepted(s, h, result, now)
    ensures ResolveModelOutcome(result.status, result.errorType) == Resolved(StatusOf(result), ClassOf(result))
  {
    hide ModelMetadata, UsageAccepted, ValidTimings, ResolveModelOutcome, MODEL_ERRORS;
  }

  lemma OperationWrites(s: Settings, h: Handle, result: OperationResult, now: int)
    requires h.kind.OperationKind? && Startable(h.kind) && Recording(h) && ResultAccepted(s, h, result, now)
    ensures var meta, usage := MetaOf(h, result, now), UsageOf(h, result);
      && TrackedUsage(Permitted(s), result.usage) && |meta.purpose| <= MAX_METRIC_VALUE && meta.status in STATUSES
      && ValidUsage(usage) && WithPurpose(meta, result.usage) == usage
      && InteractionWrites(s, meta, result.usage) == UsageWrites(s.labels, meta, usage) + DurationWrites(s.labels, meta)
      && StreamingPart(s, meta, result) ==
           if result.streaming == None then []
           else StreamingWrites(s.labels, meta, usage.outputTokens, result.streaming.value, meta.duration)
  {
    hide UsageWrites, DurationWrites, StreamingWrites, ValidTimings, NamesOperation, ModelMetadata;
    OperationPurpose(h.kind);
    var meta := MetaOf(h, result, now);
    PurposeStaysValid(s, meta, result.usage);
  }

  // ----- retrievals

  /** A finished retrieval leaves the caller's count, the documents with their references protected
      and their scores unchanged up to the limit, and its outcome; it asks nothing of the metrics. */
  lemma RetrievalIsRecorded(s: Settings, h: Handle, result: RetrievalResult, now: int)
    requires h.kind.RetrievalKind? && Recording(h)
    requires |BoundedJson.MARKER| <= s.payload.limit <= JsonDecode.MAX_BYTES
    requires Apply(s, h, CallFinishRetrieval(result), now).reply == Done
    ensures |Apply(s, h, CallFinishRetrieval(result), now).handle.span| > |h.span|
    ensures var step := Apply(s, h, CallFinishRetrieval(result), now);
      var event := step.handle.span[|h.span|];
      var objects := DocumentObjects(s.payload.policy, s.hash, result.documents);
      var outcome := ResolveToolOutcome(s.classes, result.status, result.failure, result.errorClass);
      && step.writes == [] && outcome.Resolved?
      && FinishedWith(h, step.handle, [event, OutcomeSet(outcome.status, outcome.errorClass)])
      && event.Retrieved? && event.returned == result.returned
      && if objects == [] then event.text == "" && !event.truncated
         else && HoldsLongest(event.text, objects, s.payload.limit)
              && (event.truncated <==> |JsonDecode.Decode(event.text).value.items| < |objects|)
  {
    hide ResolveToolOutcome, Documents.Prepared, BoundedJson.BoundedArray, Documents.ProtectWires, Documents.WiresJson,
         HoldsLongest, JsonDecode.Decode, DocumentObject;
    if result.documents != [] {
      DocumentsAreRecorded(s.payload.policy, s.hash, result.returned, result.documents, s.payload.limit);
    }
    PreparedLength(result.returned, result.documents);
  }

  lemma PreparedLength(returned: int, docs: seq<Documents.Document>)
    requires Documents.Prepared(returned, docs).Some?
    ensures |Documents.Prepared(returned, docs).value| == |docs|
  {
    hide Payload.ChannelDecodes, Documents.DocumentsAccepted;
  }

  // ----- tools

  /** A finished tool call leaves its protected result if it has one, whether it failed, and its
      outcome; it asks for one duration under the cleaned name of the tool. */
  lemma ToolIsRecorded(s: Settings, h: Handle, result: ToolResult, panics: bool, now: int)
    requires h.kind.ToolKind? && Recording(h)
    requires Apply(s, h, CallFinishTool(result, panics), now).reply == Done
    ensures var step := Apply(s, h, CallFinishTool(result, panics), now);
      var text := ToolPayload.ToolAttribute(s.payload, result.result);
      var outcome := ResolveToolOutcome(s.classes, result.status, result.failure, result.errorClass);
      && outcome.Resolved?
      && FinishedWith(h, step.handle,
           (if text == None then [] else [ToolResulted(text.value)])
           + [ToolFailed(outcome.status == "error"), OutcomeSet(outcome.status, outcome.errorClass)])
      && step.writes == ToolWrites(MetricValue(s.unicode, h.kind.name, "unknown"), now - h.started.value,
                                   outcome.status, outcome.errorClass)
  {
    hide ResolveToolOutcome, ToolPayload.ToolAttribute, ToolPolicyReached, ToolWrites, MetricValue;
  }

  // ----- invocations

  /** A finished invocation leaves its outcome and asks for one duration of its own kind and locality. */
  lemma InvocationIsRecorded(s: Settings, h: Handle, result: InvocationResult, now: int)
    requires h.kind.InvocationKind? && Startable(h.kind) && Recording(h)
    requires Apply(s, h, CallFinishInvocation(result), now).reply == Done
    ensures var step := Apply(s, h, CallFinishInvocation(result), now);
      var outcome := ResolveToolOutcome(s.classes, result.status, result.failure, result.errorClass);
      && outcome.Resolved?
      && FinishedWith(h, step.handle, [OutcomeSet(outcome.status, outcome.errorClass)])
      && step.writes == InvocationWrites(h.kind.kind, h.kind.locality, now - h.started.value, outcome.status)
  {
    hide ResolveToolOutcome, InvocationWrites;
  }

  // ----- closing

  /** Closing any recording handle claims nothing: the outcome is unset, there is no payload, no
      usage and no result; only the time since the start is recorded. */
  lemma ClosingClaimsNothing(s: Settings, h: Handle, now: int)
    requires Startable(h.kind) && Recording(h)
    ensures var step := Apply(s, h, CallClose, now);
      var elapsed := now - h.started.value;
      && step.reply == Done
      && match h.kind
         case OperationKind(meta, logical) =>
           var closed := meta.(status := "unset", errorType := "", responseModel := "", duration := elapsed);
           && FinishedWith(h, step.handle,
                [Interacted(closed, [], NO_USAGE.(purpose := meta.purpose)), OutcomeSet("unset", "")])
           && step.writes == if logical then [] else DurationWrites(s.labels, closed)
         case ToolKind(name) =>
           && FinishedWith(h, step.handle, [ToolFailed(false), OutcomeSet("unset", "")])
           && step.writes == ToolWrites(MetricValue(s.unicode, name, "unknown"), elapsed, "unset", "")
         case RetrievalKind =>
           FinishedWith(h, step.handle, [OutcomeSet("unset", "")]) && step.writes == []
         case InvocationKind(kind, locality) =>
           && FinishedWith(h, step.handle, [OutcomeSet("unset", "")])
           && step.writes == InvocationWrites(kind, locality, elapsed, "unset")
  {
    hide ResolveToolOutcome, ToolWrites, MetricValue, InvocationWrites, DurationWrites, InteractionWrites,
         NamesOperation, ModelMetadata;
    match h.kind {
      case OperationKind(meta, logical) => ClosingWrites(s, h, now);
      case ToolKind(_) => NothingReported();
      case _ =>
    }
  }

  lemma NothingReported()
    ensures forall cfg: Payload.Config :: ToolPayload.ToolAttribute(cfg, "") == None
  {
    hide ToolPayload.ToolInput;
  }

  lemma ClosingWrites(s: Settings, h: Handle, now: int)
    requires h.kind.OperationKind? && Startable(h.kind) && Recording(h)
    ensures var closed := FinalMeta(h.kind.meta, "unset", "", "", now - h.started.value);
      && |closed.purpose| <= MAX_METRIC_VALUE && TrackedUsage(Permitted(s), NO_USAGE)
      && WithPurpose(closed, NO_USAGE) == NO_USAGE.(purpose := h.kind.meta.purpose)
      && InteractionWrites(s, closed, NO_USAGE) == DurationWrites(s.labels, closed)
  {
    hide DurationWrites, NamesOperation;
    OperationPurpose(h.kind);
    NoUsageAccepted(s);
    var closed := FinalMeta(h.kind.meta, "unset", "", "", now - h.started.value);
    PurposeStaysValid(s, closed, NO_USAGE);
    AddEmpty(DurationWrites(s.labels, closed));
  }

  // ----- panics and handles that do not record

  /** The classifier is asked about an unclassified error, and panics. */
  predicate ClassifierFails(status: Bytes, failure: Failure, errorClass: Bytes)
  {
    failure == ClassifierPanics && errorClass == "" && status in {"", "error"}
  }

  /** The calls in which host code panics: a payload policy that is reached, or a classifier that is
      asked. */
  predicate HostPanics(s: Settings, h: Handle, c: Call, now: int)
    requires h.started.Some?
  {
    match c
    case CallFinishOperation(result, _, panics) =>
      panics && ResultAccepted(s, h, result, now) && s.payload.record && Payload.Accepted(result.payload, true)
    case CallFinishTool(result, panics) =>
      || ClassifierFails(result.status, result.failure, result.errorClass)
      || (&& panics && s.payload.record && result.result != "" && ToolPayload.ToolInput(result.result) == None
          && ResolveToolOutcome(s.classes, result.status, result.failure, result.errorClass).Resolved?)
    case CallFinishRetrieval(result) =>
      && Documents.Prepared(result.returned, result.documents).Some?
      && ClassifierFails(result.status, result.failure, result.errorClass)
    case CallFinishInvocation(result) => ClassifierFails(result.status, result.failure, result.errorClass)
    case CallUpdate(_) => false
    case CallClose => false
  }

  /** A panic of host code, and nothing else, ends a recording as an unknown error, with nothing else
      on its span and nothing asked of the metrics. */
  lemma PanicsEndAsErrors(s: Settings, h: Handle, c: Call, now: int)
    requires Startable(h.kind) && Offers(h.kind, c)
    ensures var step := Apply(s, h, c, now);
      && (step.reply == Panicked <==> Recording(h) && HostPanics(s, h, c, now))
      && (step.reply == Panicked ==>
            && step.writes == []
            && step.handle == h.(finished := true,
                                 span := h.span + [OutcomeSet("error", "unknown"), CallbackPanic, Ended]))
  {
    hide Startable, ResultAccepted, Payload.PayloadAttributes, Payload.Accepted, InteractionWrites, StreamingPart,
         CommitOperation, ToolPayload.ToolAttribute, ToolPayload.ToolInput, ToolWrites, Documents.Prepared,
         DocumentsText, InvocationWrites, UsageAccepted, ToolLabel;
    match c {
      case CallFinishOperation(result, attrs, panics) =>
        if Recording(h) && ResultAccepted(s, h, result, now) {
          CommitsDone(s, h, result, attrs, now);
        }
      case _ =>
    }
  }

  lemma CommitsDone(s: Settings, h: Handle, result: OperationResult, attrs: seq<(Bytes, Bytes)>, now: int)
    requires h.kind.OperationKind? && Startable(h.kind) && Recording(h) && ResultAccepted(s, h, result, now)
    ensures forall payload :: CommitOperation(s, h, result, attrs, payload, now).reply == Done
  {
    hide Startable, ResultAccepted, CommitOperation, InteractionWrites, StreamingPart;
    forall payload: seq<Payload.Attribute>
      ensures CommitOperation(s, h, result, attrs, payload, now).reply == Done
    {
      CommitStep(s, h, result, attrs, payload, now);
    }
  }

  /** A handle without a tracker leaves nothing, whatever is called. */
  lemma UntrackedLeavesNothing(s: Settings, h: Handle, c: Call, now: int)
    requires Startable(h.kind) && Offers(h.kind, c) && !h.tracked
    ensures Apply(s, h, c, now).writes == [] && Apply(s, h, c, now).handle.span == h.span
  {
    hide Startable, ResultAccepted, Payload.PayloadAttributes, PolicyReached, InteractionWrites, StreamingPart,
         ToolPayload.ToolAttribute, ToolPolicyReached, ToolWrites, Documents.Prepared, InvocationWrites, UsageAccepted,
         ToolLabel, ResolveToolOutcome;
  }

  // ----- refusals

  /** Every call on a handle without a start is missing one, every call on a finished handle is late; an
      intermediate usage is only checked, and a tool or an invocation is refused for its outcome alone. */
  lemma CallsAreRefused(s: Settings, h: Handle, c: Call, now: int)
    requires Startable(h.kind) && Offers(h.kind, c)
    ensures var step := Apply(s, h, c, now);
      && (step.reply == Missing <==> h.started == None)
      && (step.reply == Finalized <==> h.started.Some? && h.finished)
      && (h.started.Some? && !h.finished ==>
            match c
            case CallUpdate(usage) =>
              && step == Step(step.reply, h, [])
              && (step.reply == Done <==>
                    && ValidUsage(usage)
                    && (h.tracked && usage.cost.present ==> usage.currency in Values(Permitted(s), Currency)))
            case CallFinishTool(result, _) =>
              step.reply == Rejected <==>
                ResolveFor(s, h, result.status, result.failure, result.errorClass) == Invalid
            case CallFinishInvocation(result) =>
              step.reply == Rejected <==>
                ResolveFor(s, h, result.status, result.failure, result.errorClass) == Invalid
            case _ => true)
  {
    hide Startable, ResultAccepted, Payload.PayloadAttributes, Payload.Accepted, InteractionWrites, StreamingPart,
         CommitOperation, ToolPayload.ToolAttribute, ToolPolicyReached, ToolWrites, Documents.Prepared, DocumentsText,
         InvocationWrites, ResolveFor, ToolLabel, ValidUsage;
    match c {
      case CallFinishOperation(result, attrs, panics) =>
        if Recording(h) && ResultAccepted(s, h, result, now) {
          CommitsDone(s, h, result, attrs, now);
        }
      case _ =>
    }
  }
}
