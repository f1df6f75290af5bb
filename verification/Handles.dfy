/** The four kinds of recording handles as state machines (genai/operation_handle.go, genai/tool.go,
    genai/retrieval.go, genai/invocation.go, genai/callback_failure.go). A body under the handle's
    mutex is one step. */
module Handles {
  import opened Bytes
  import opened Utf8
  import opened Usage
  import opened Outcome
  import opened Cardinality
  import opened Recorder
  import opened Tracking
  import JsonTree
  import BoundedJson
  import Payload
  import ToolPayload
  import Documents = RetrievalDocuments

  const MAX_IDENTITY: int := 256
  const MAX_METRIC_VALUE: int := 80

  datatype Reply = Done | Rejected | Finalized | Missing | Panicked

  /** What is written to a span after its start. */
  datatype SpanEvent =
    | HostAttributes(attrs: seq<(Bytes, Bytes)>)
    | StatusAttribute(status: Bytes)
    | Interacted(meta: Meta, payload: seq<Payload.Attribute>, usage: Usage)
    | ToolResulted(text: Bytes)
    | ToolFailed(failed: bool)
    | Retrieved(returned: int, text: Bytes, truncated: bool)
    | OutcomeSet(status: Bytes, errorClass: Bytes)
    | CallbackPanic
    | Ended

  datatype Kind =
    | OperationKind(meta: Meta, logical: bool)
    | ToolKind(name: Bytes)
    | RetrievalKind
    | InvocationKind(kind: Bytes, locality: Bytes)

  /** A handle: untracked when the recorder is a no-op, without a start when it is a zero value. */
  datatype Handle = Handle(kind: Kind, tracked: bool, started: Option<int>, finished: bool, span: seq<SpanEvent>)

  datatype OperationResult = OperationResult(
    status: Bytes, errorType: Bytes, responseModel: Bytes, duration: int, usage: Usage,
    streaming: Option<Timings>, payload: Payload.Payload)

  datatype ToolResult = ToolResult(status: Bytes, failure: Failure, errorClass: Bytes, result: Bytes)

  datatype RetrievalResult = RetrievalResult(
    status: Bytes, failure: Failure, errorClass: Bytes, returned: int, documents: seq<Documents.Document>)

  datatype InvocationResult = InvocationResult(status: Bytes, failure: Failure, errorClass: Bytes)

  /** The new state of the handle, the reply and the metric writes of one step. */
  datatype Step = Step(reply: Reply, handle: Handle, writes: seq<Write>)

  function Refuse(h: Handle, reply: Reply): Step { Step(reply, h, []) }

  /** The irrevocable end: a tracked span receives its last events and ends. */
  function Commit(h: Handle, events: seq<SpanEvent>, writes: seq<Write>): Step
  {
    if h.tracked then Step(Done, h.(finished := true, span := h.span + events + [Ended]), writes)
    else Step(Done, h.(finished := true), [])
  }

  const PANIC_EVENTS: seq<SpanEvent> := [OutcomeSet(ERROR, UNKNOWN), CallbackPanic, Ended]

  /** A host callback panicked: the recording ends as an error, nothing is accounted. */
  function Abort(h: Handle): Step
  {
    Step(Panicked, h.(finished := true, span := if h.tracked then h.span + PANIC_EVENTS else h.span), [])
  }

  predicate ModelMetadata(model: Bytes, purpose: Bytes)
  {
    |model| <= MAX_IDENTITY && |purpose| <= MAX_METRIC_VALUE && Valid(model) && Valid(purpose)
  }

  predicate NamesOperation(name: Bytes)
  {
    ToolPayload.TrimLeft(name) != [] && |name| <= MAX_IDENTITY && Valid(name)
  }

  /** What starting a recording has validated. */
  predicate Startable(k: Kind)
  {
    match k
    case OperationKind(meta, _) =>
      meta.locality in {LOCAL, REMOTE} && NamesOperation(meta.operation)
        && ModelMetadata(meta.requestModel, meta.purpose)
    case ToolKind(_) => true
    case RetrievalKind => true
    case InvocationKind(kind, locality) => (kind, locality) in BOUNDARIES
  }

  /** The classes and the classifier of a handle: without a tracker the library's own, which never panics. */
  function ResolveFor(s: Settings, h: Handle, status: Bytes, failure: Failure, errorClass: Bytes): Resolution
  {
    if h.tracked then ResolveToolOutcome(s.classes, status, failure, errorClass)
    else
      ResolveToolOutcome(DEFAULT_CLASSES, status,
                         if failure == ClassifierPanics then Failed(UNKNOWN) else failure, errorClass)
  }

  // ----- operations

  lemma OperationPurpose(k: Kind)
    requires k.OperationKind? && Startable(k)
    ensures |k.meta.purpose| <= MAX_METRIC_VALUE
  {
  }

  function FinalMeta(meta: Meta, status: Bytes, errorClass: Bytes, responseModel: Bytes, duration: int): Meta
  {
    meta.(status := status, errorType := errorClass, responseModel := responseModel, duration := duration)
  }

  predicate UsageAccepted(s: Settings, h: Handle, usage: Usage)
  {
    if h.tracked then TrackedUsage(Permitted(s), usage) else ValidUsage(usage)
  }

  predicate ResultAccepted(s: Settings, h: Handle, result: OperationResult, now: int)
    requires h.started.Some?
  {
    && ResolveModelOutcome(result.status, result.errorType).Resolved?
    && ModelMetadata(result.responseModel, "") && result.duration == 0 && UsageAccepted(s, h, result.usage)
    && (result.streaming.Some? ==> ValidTimings(result.streaming.value, now - h.started.value))
  }

  /** Whether finishing reaches the host's payload policy. */
  predicate PolicyReached(s: Settings, p: Payload.Payload) { s.payload.record && Payload.Accepted(p, true) }

  lemma PurposeStaysValid(s: Settings, meta: Meta, usage: Usage)
    requires TrackedUsage(Permitted(s), usage) && |meta.purpose| <= MAX_METRIC_VALUE
    ensures TrackedUsage(Permitted(s), WithPurpose(meta, usage))
  {
  }

  function InteractionWrites(s: Settings, meta: Meta, usage: Usage): seq<Write>
    requires TrackedUsage(Permitted(s), usage) && |meta.purpose| <= MAX_METRIC_VALUE && meta.status in STATUSES
  {
    PurposeStaysValid(s, meta, usage);
    Writes(s.labels, Permitted(s), Interaction(meta, usage))
  }

  function StreamingPart(s: Settings, meta: Meta, result: OperationResult): seq<Write>
  {
    if result.streaming == None then []
    else StreamingWrites(s.labels, meta, result.usage.outputTokens, result.streaming.value, meta.duration)
  }

  function FinishOperation(s: Settings, h: Handle, result: OperationResult, attrs: seq<(Bytes, Bytes)>,
    panics: bool, now: int): Step
    requires h.kind.OperationKind? && Startable(h.kind)
  {
    if h.started == None then Refuse(h, Missing)
    else if h.finished then Refuse(h, Finalized)
    else if !ResultAccepted(s, h, result, now) then Refuse(h, Rejected)
    else if !h.tracked then Commit(h, [], [])
    else if PolicyReached(s, result.payload) && panics then Abort(h)
    else
      match Payload.PayloadAttributes(s.payload, result.payload)
      case None => Refuse(h, Rejected)
      case Some(payload) => CommitOperation(s, h, result, attrs, payload, now)
  }

  function CommitOperation(s: Settings, h: Handle, result: OperationResult, attrs: seq<(Bytes, Bytes)>,
    payload: seq<Payload.Attribute>, now: int): Step
    requires h.kind.OperationKind? && Startable(h.kind) && h.started.Some? && h.tracked
      && ResultAccepted(s, h, result, now)
  {
    var outcome := ResolveModelOutcome(result.status, result.errorType);
    var meta := FinalMeta(h.kind.meta, outcome.status, outcome.errorClass, result.responseModel, now - h.started.value);
    Commit(h,
      (if attrs == [] then [] else [HostAttributes(attrs)])
      + [StatusAttribute(outcome.status), Interacted(meta, payload, WithPurpose(meta, result.usage)),
         OutcomeSet(outcome.status, outcome.errorClass)],
      if h.kind.logical then [] else InteractionWrites(s, meta, result.usage) + StreamingPart(s, meta, result))
  }

  /** The step of an accepted result, spelled out. */
  lemma CommitStep(s: Settings, h: Handle, result: OperationResult, attrs: seq<(Bytes, Bytes)>,
    payload: seq<Payload.Attribute>, now: int)
    requires h.kind.OperationKind? && Startable(h.kind) && h.started.Some? && h.tracked
    requires ResultAccepted(s, h, result, now)
    ensures |h.kind.meta.purpose| <= MAX_METRIC_VALUE && TrackedUsage(Permitted(s), result.usage)
    ensures var outcome := ResolveModelOutcome(result.status, result.errorType);
      outcome.Resolved? && outcome.status in STATUSES
    ensures var outcome := ResolveModelOutcome(result.status, result.errorType);
      var meta := FinalMeta(h.kind.meta, outcome.status, outcome.errorClass, result.responseModel,
        now - h.started.value);
      var events := (if attrs == [] then [] else [HostAttributes(attrs)])
        + [StatusAttribute(outcome.status), Interacted(meta, payload, WithPurpose(meta, result.usage)),
           OutcomeSet(outcome.status, outcome.errorClass)];
      CommitOperation(s, h, result, attrs, payload, now) ==
        Step(Done, h.(finished := true, span := h.span + events + [Ended]),
             if h.kind.logical then [] else InteractionWrites(s, meta, result.usage) + StreamingPart(s, meta, result))
  {
    hide InteractionWrites, StreamingWrites, WithPurpose, TrackedUsage, ValidTimings;
  }

  /** An intermediate cumulative usage is checked and otherwise ignored. */
  function Update(s: Settings, h: Handle, usage: Usage): Step
  {
    if h.started == None then Refuse(h, Missing)
    else if h.finished then Refuse(h, Finalized)
    else if !UsageAccepted(s, h, usage) then Refuse(h, Rejected)
    else Refuse(h, Done)
  }

  lemma NoUsageAccepted(s: Settings)
    ensures TrackedUsage(Permitted(s), NO_USAGE)
  {
  }

  function CloseOperation(s: Settings, h: Handle, now: int): Step
    requires h.kind.OperationKind? && Startable(h.kind)
  {
    if h.started == None then Refuse(h, Missing)
    else if h.finished then Refuse(h, Finalized)
    else
      NoUsageAccepted(s);
      var meta := FinalMeta(h.kind.meta, UNSET, "", "", now - h.started.value);
      Commit(h, [Interacted(meta, [], WithPurpose(meta, NO_USAGE)), OutcomeSet(UNSET, "")],
             if h.kind.logical then [] else InteractionWrites(s, meta, NO_USAGE))
  }

  // ----- tools

  predicate ToolPolicyReached(s: Settings, result: Bytes)
  {
    s.payload.record && result != [] && ToolPayload.ToolInput(result) == None
  }

  /** The result is recorded after the commitment: a panic there leaves no duration. */
  function FinishTool(s: Settings, h: Handle, result: ToolResult, panics: bool, now: int): Step
    requires h.kind.ToolKind?
  {
    if h.started == None then Refuse(h, Missing)
    else if h.finished then Refuse(h, Finalized)
    else
      match ResolveFor(s, h, result.status, result.failure, result.errorClass)
      case Invalid => Refuse(h, Rejected)
      case Panic => Abort(h)
      case Resolved(status, errorClass) =>
        if h.tracked && ToolPolicyReached(s, result.result) && panics then Abort(h)
        else
          var text := ToolPayload.ToolAttribute(s.payload, result.result);
          Commit(h,
            (if text == None then [] else [ToolResulted(text.value)])
              + [ToolFailed(status == ERROR), OutcomeSet(status, errorClass)],
            ToolWrites(ToolLabel(s, h.kind.name), now - h.started.value, status, errorClass))
  }

  const CLOSED_TOOL: ToolResult := ToolResult(UNSET, NoFailure, "", "")

  // ----- retrievals

  /** The recorded documents; None when their encoding fails. */
  function DocumentsText(s: Settings, h: Handle, wires: seq<Documents.Wire>): Option<(Bytes, bool)>
  {
    if !h.tracked || wires == [] then Some(("", false))
    else
      match BoundedJson.BoundedArray(
        JsonTree.JArr(Documents.WiresJson(Documents.ProtectWires(s.payload.policy, s.hash, wires))), s.payload.limit)
      case Err(_) => None
      case Ok(r) => Some(r)
  }

  function FinishRetrieval(s: Settings, h: Handle, result: RetrievalResult): Step
    requires h.kind.RetrievalKind?
  {
    if h.started == None then Refuse(h, Missing)
    else if h.finished then Refuse(h, Finalized)
    else
      match Documents.Prepared(result.returned, result.documents)
      case None => Refuse(h, Rejected)
      case Some(wires) =>
        match ResolveFor(s, h, result.status, result.failure, result.errorClass)
        case Invalid => Refuse(h, Rejected)
        case Panic => Abort(h)
        case Resolved(status, errorClass) =>
          match DocumentsText(s, h, wires)
          case None => Refuse(h, Rejected)
          case Some((text, truncated)) =>
            Commit(h, [Retrieved(result.returned, text, truncated), OutcomeSet(status, errorClass)], [])
  }

  function CloseRetrieval(h: Handle): Step
    requires h.kind.RetrievalKind?
  {
    if h.started == None then Refuse(h, Missing)
    else if h.finished then Refuse(h, Finalized)
    else Commit(h, [OutcomeSet(UNSET, "")], [])
  }

  // ----- invocations

  function FinishInvocation(s: Settings, h: Handle, result: InvocationResult, now: int): Step
    requires h.kind.InvocationKind?
  {
    if h.started == None then Refuse(h, Missing)
    else if h.finished then Refuse(h, Finalized)
    else
      match ResolveFor(s, h, result.status, result.failure, result.errorClass)
      case Invalid => Refuse(h, Rejected)
      case Panic => Abort(h)
      case Resolved(status, errorClass) =>
        Commit(h, [OutcomeSet(status, errorClass)],
               InvocationWrites(h.kind.kind, h.kind.locality, now - h.started.value, status))
  }

  const CLOSED_INVOCATION: InvocationResult := InvocationResult(UNSET, NoFailure, "")

  // ----- calls

  datatype Call =
    | CallFinishOperation(operation: OperationResult, attrs: seq<(Bytes, Bytes)>, panics: bool)
    | CallUpdate(usage: Usage)
    | CallFinishTool(tool: ToolResult, panics: bool)
    | CallFinishRetrieval(retrieval: RetrievalResult)
    | CallFinishInvocation(invocation: InvocationResult)
    | CallClose

  /** The methods each kind of handle has. */
  predicate Offers(k: Kind, c: Call)
  {
    match c
    case CallFinishOperation(_, _, _) => k.OperationKind?
    case CallUpdate(_) => k.OperationKind?
    case CallFinishTool(_, _) => k.ToolKind?
    case CallFinishRetrieval(_) => k.RetrievalKind?
    case CallFinishInvocation(_) => k.InvocationKind?
    case CallClose => true
  }

  function Apply(s: Settings, h: Handle, c: Call, now: int): Step
    requires Startable(h.kind) && Offers(h.kind, c)
  {
    match c
    case CallFinishOperation(result, attrs, panics) => FinishOperation(s, h, result, attrs, panics, now)
    case CallUpdate(usage) => Update(s, h, usage)
    case CallFinishTool(result, panics) => FinishTool(s, h, result, panics, now)
    case CallFinishRetrieval(result) => FinishRetrieval(s, h, result)
    case CallFinishInvocation(result) => FinishInvocation(s, h, result, now)
    case CallClose =>
      match h.kind
      case OperationKind(_, _) => CloseOperation(s, h, now)
      case ToolKind(_) => FinishTool(s, h, CLOSED_TOOL, false, now)
      case RetrievalKind => CloseRetrieval(h)
      case InvocationKind(_, _) => FinishInvocation(s, h, CLOSED_INVOCATION, now)
  }
}
