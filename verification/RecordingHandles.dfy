/** The recording handles as the callers hold them (genai/operation_handle.go, genai/tool.go,
    genai/retrieval.go, genai/invocation.go, genai/callback_failure.go): each method is one step of
    its state machine and asks the shared tracker for exactly the writes of that step. */
module RecordingHandles {
  import opened Bytes
  import opened Usage
  import opened Outcome
  import opened Cardinality
  import opened Recorder
  import opened Tracking
  import opened MetricNames
  import opened Handles
  import JsonTree
  import Payload
  import Documents = RetrievalDocuments

  const ZEROS: Bytes := seq(64, i => '0')

  const NO_CLASSES: Unicode := Unicode(r => false, r => false)

  /** The configuration of a recorder without a tracker. */
  const DEFAULT_SETTINGS: Settings :=
    Settings(Profile("", 0, []), (k, s) => s, Payload.Config(false, Payload.RedactPolicy({}), 0), s => ZEROS,
             DEFAULT_CLASSES, NO_CLASSES)

  function SettingsOf(t: Tracker?): Settings { if t == null then DEFAULT_SETTINGS else t.settings }

  /** The shared state a handle's methods write to. */
  ghost function Shared(t: Tracker?): set<object> { if t == null then {} else {t, t.dimensions} }

  ghost predicate Usable(t: Tracker?)
    reads Shared(t)
  {
    t != null ==> t.Valid()
  }

  class OperationHandle {
    const tracker: Tracker?
    const kind: Kind
    const started: Option<int>
    var finished: bool
    var span: seq<SpanEvent>

    constructor (tracker: Tracker?, meta: Meta, logical: bool, now: int)
      ensures this.tracker == tracker
      ensures View() == Handle(OperationKind(meta, logical), tracker != null, Some(now), false, [])
    {
      this.tracker := tracker;
      kind := OperationKind(meta, logical);
      started := Some(now);
      finished := false;
      span := [];
    }

    function View(): Handle
      reads this
    {
      Handle(kind, tracker != null, started, finished, span)
    }

    /** A panic of the payload policy ends the recording before it propagates. */
    method EndOnPanic()
      requires tracker != null
      modifies `finished, `span
      ensures View() == Abort(old(View())).handle
    {
      finished := true;
      span := span + [OutcomeSet(ERROR, UNKNOWN)];
      span := span + [CallbackPanic];
      span := span + [Ended];
      assert span == old(span) + PANIC_EVENTS;
    }

    method RecordInteraction(meta: Meta, payload: seq<Payload.Attribute>, usage: Usage, accounting: bool)
      requires tracker != null && tracker.Valid() && TrackedUsage(Permitted(tracker.settings), usage)
      requires |meta.purpose| <= MAX_METRIC_VALUE && meta.status in STATUSES
      modifies `span, Shared(tracker)
      ensures tracker.Valid()
      ensures span == old(span)
        + [Interacted(meta, payload, WithPurpose(meta, usage)), OutcomeSet(meta.status, meta.errorType)]
      ensures tracker.requested == old(tracker.requested)
        + if accounting then InteractionWrites(tracker.settings, meta, usage) else []
    {
      hide TrackedUsage, Writes, WithPurpose, Tracker.Valid;
      span := span + [Interacted(meta, payload, WithPurpose(meta, usage)), OutcomeSet(meta.status, meta.errorType)];
      PurposeStaysValid(tracker.settings, meta, usage);
      tracker.RecordInteraction(meta, usage, accounting);
    }

    method Finish(result: OperationResult, attrs: seq<(Bytes, Bytes)>, panics: bool, now: int) returns (reply: Reply)
      requires kind.OperationKind? && Startable(kind) && Usable(tracker)
      modifies this, Shared(tracker)
      ensures Usable(tracker)
      ensures var step := FinishOperation(SettingsOf(tracker), old(View()), result, attrs, panics, now);
        && reply == step.reply && View() == step.handle
        && (tracker != null ==> tracker.requested == old(tracker.requested) + step.writes)
    {
      hide Startable, ModelMetadata, TrackedUsage, ValidUsage, ValidTimings, PolicyReached, Payload.PayloadAttributes,
           CommitOperation, Tracker.Valid;
      ghost var h := View();
      if tracker != null {
        AddEmpty(tracker.requested);
      }
      if started == None {
        return Missing;
      }
      if finished {
        return Finalized;
      }
      var outcome := ResolveModelOutcome(result.status, result.errorType);
      if outcome == Invalid {
        return Rejected;
      }
      if !ModelMetadata(result.responseModel, "") {
        return Rejected;
      }
      if result.duration != 0 {
        return Rejected;
      }
      if tracker != null {
        var valid := tracker.ValidateUsage(result.usage);
        if !valid {
          return Rejected;
        }
      } else if !ValidUsage(result.usage) {
        return Rejected;
      }
      var elapsed := now - started.value;
      if result.streaming.Some? && !ValidTimings(result.streaming.value, elapsed) {
        return Rejected;
      }
      assert ResultAccepted(SettingsOf(tracker), View(), result, now);
      if tracker == null {
        finished := true;
        return Done;
      }
      if PolicyReached(tracker.settings, result.payload) && panics {
        EndOnPanic();
        return Panicked;
      }
      var payload := Payload.BuildPayloadAttributes(tracker.settings.payload, result.payload);
      if payload == None {
        return Rejected;
      }
      finished := true;
      CommitResult(h, result, attrs, payload.value, outcome, now);
      return Done;
    }

    /** The step of an accepted result of a handle that was h. */
    method CommitResult(ghost h: Handle, result: OperationResult, attrs: seq<(Bytes, Bytes)>,
      payload: seq<Payload.Attribute>, outcome: Resolution, now: int)
      requires tracker != null && tracker.Valid() && finished && h == View().(finished := false)
      requires kind.OperationKind? && Startable(kind) && started.Some?
        && ResultAccepted(tracker.settings, h, result, now)
      requires outcome == ResolveModelOutcome(result.status, result.errorType)
      modifies `span, Shared(tracker)
      ensures tracker.Valid()
      ensures var step := CommitOperation(tracker.settings, h, result, attrs, payload, now);
        && step.reply == Done && View() == step.handle && tracker.requested == old(tracker.requested) + step.writes
    {
      hide Startable, ResultAccepted, TrackedUsage, InteractionWrites, StreamingPart, WithPurpose, CommitOperation,
           FinalMeta, ResolveModelOutcome, Tracker.Valid;
      CommitStep(tracker.settings, h, result, attrs, payload, now);
      CommitInto(result, attrs, payload, outcome, now - started.value);
    }

    /** The writes of an accepted result. */
    method CommitInto(result: OperationResult, attrs: seq<(Bytes, Bytes)>, payload: seq<Payload.Attribute>,
      outcome: Resolution, elapsed: int)
      requires tracker != null && tracker.Valid() && kind.OperationKind? && |kind.meta.purpose| <= MAX_METRIC_VALUE
      requires TrackedUsage(Permitted(tracker.settings), result.usage)
      requires outcome.Resolved? && outcome.status in STATUSES
      modifies `span, Shared(tracker)
      ensures tracker.Valid()
      ensures var meta := FinalMeta(kind.meta, outcome.status, outcome.errorClass, result.responseModel, elapsed);
        && span == old(span) + ((if attrs == [] then [] else [HostAttributes(attrs)])
             + [StatusAttribute(outcome.status), Interacted(meta, payload, WithPurpose(meta, result.usage)),
                OutcomeSet(outcome.status, outcome.errorClass)]) + [Ended]
        && tracker.requested == old(tracker.requested)
             + if kind.logical then []
               else
                 InteractionWrites(tracker.settings, meta, result.usage)
                 + StreamingPart(tracker.settings, meta, result)
    {
      hide TrackedUsage, InteractionWrites, StreamingWrites, WithPurpose, Tracker.Valid;
      ghost var before := tracker.requested;
      AddEmpty(before);
      if attrs != [] {
        span := span + [HostAttributes(attrs)];
      }
      var meta := FinalMeta(kind.meta, outcome.status, outcome.errorClass, result.responseModel, elapsed);
      span := span + [StatusAttribute(outcome.status)];
      RecordInteraction(meta, payload, result.usage, !kind.logical);
      AddEmpty(InteractionWrites(tracker.settings, meta, result.usage));
      if result.streaming.Some? && !kind.logical {
        tracker.RecordStreamingQuality(meta, result.usage.outputTokens, result.streaming.value, elapsed);
        Assoc(before, InteractionWrites(tracker.settings, meta, result.usage),
          StreamingPart(tracker.settings, meta, result));
      }
      span := span + [Ended];
    }

    method ValidateStreamingUpdate(usage: Usage) returns (reply: Reply)
      ensures reply == Update(SettingsOf(tracker), View(), usage).reply
    {
      hide TrackedUsage, ValidUsage;
      if started == None {
        return Missing;
      }
      if finished {
        return Finalized;
      }
      if tracker != null {
        var valid := tracker.ValidateUsage(usage);
        if !valid {
          return Rejected;
        }
      } else if !ValidUsage(usage) {
        return Rejected;
      }
      return Done;
    }

    method Close(now: int) returns (reply: Reply)
      requires kind.OperationKind? && Startable(kind) && Usable(tracker)
      modifies this, Shared(tracker)
      ensures Usable(tracker)
      ensures var step := CloseOperation(SettingsOf(tracker), old(View()), now);
        && reply == step.reply && View() == step.handle
        && (tracker != null ==> tracker.requested == old(tracker.requested) + step.writes)
    {
      hide Startable, TrackedUsage, InteractionWrites, WithPurpose, Tracker.Valid;
      if tracker != null {
        AddEmpty(tracker.requested);
      }
      if started == None {
        return Missing;
      }
      if finished {
        return Finalized;
      }
      finished := true;
      if tracker == null {
        return Done;
      }
      OperationPurpose(kind);
      NoUsageAccepted(tracker.settings);
      var meta := FinalMeta(kind.meta, UNSET, "", "", now - started.value);
      RecordInteraction(meta, [], NO_USAGE, !kind.logical);
      span := span + [Ended];
      return Done;
    }
  }

  class ToolHandle {
    const tracker: Tracker?
    const name: Bytes
    const started: Option<int>
    var finished: bool
    var span: seq<SpanEvent>

    constructor (tracker: Tracker?, name: Bytes, now: int)
      ensures this.tracker == tracker
      ensures View() == Handle(ToolKind(name), tracker != null, Some(now), false, [])
    {
      this.tracker := tracker;
      this.name := name;
      started := Some(now);
      finished := false;
      span := [];
    }

    function View(): Handle
      reads this
    {
      Handle(ToolKind(name), tracker != null, started, finished, span)
    }

    method Finish(result: ToolResult, panics: bool, now: int) returns (reply: Reply)
      requires Usable(tracker)
      modifies this, Shared(tracker)
      ensures Usable(tracker)
      ensures var step := FinishTool(SettingsOf(tracker), old(View()), result, panics, now);
        && reply == step.reply && View() == step.handle
        && (tracker != null ==> tracker.requested == old(tracker.requested) + step.writes)
    {
      hide ToolPayload.ToolInput, ToolPayload.BoundedTool, ToolPayload.SanitizeTool, ToolWrites, ToolLabel, ResolveFor,
           Tracker.Valid;
      if tracker != null {
        AddEmpty(tracker.requested);
      }
      if started == None {
        return Missing;
      }
      if finished {
        return Finalized;
      }
      var outcome := ResolveFor(SettingsOf(tracker), View(), result.status, result.failure, result.errorClass);
      match outcome {
        case Invalid =>
          return Rejected;
        case Panic =>
          finished := true;
          span := if tracker == null then span else span + PANIC_EVENTS;
          return Panicked;
        case Resolved(_, _) =>
      }
      finished := true;
      if tracker == null {
        return Done;
      }
      if ToolPolicyReached(tracker.settings, result.result) && panics {
        span := span + PANIC_EVENTS;
        return Panicked;
      }
      ghost var before := span;
      var text := RecordedResult(tracker.settings, result.result);
      ghost var events := if text == None then [] else [ToolResulted(text.value)];
      if text.Some? {
        span := span + [ToolResulted(text.value)];
      }
      span := span + [ToolFailed(outcome.status == ERROR)];
      span := span + [OutcomeSet(outcome.status, outcome.errorClass)];
      tracker.RecordToolDuration(name, now - started.value, outcome.status, outcome.errorClass);
      span := span + [Ended];
      assert span == before
          + (events + [ToolFailed(outcome.status == ERROR), OutcomeSet(outcome.status, outcome.errorClass)]) + [Ended];
      return Done;
    }

    method Close(now: int) returns (reply: Reply)
      requires Usable(tracker)
      modifies this, Shared(tracker)
      ensures Usable(tracker)
      ensures var step := FinishTool(SettingsOf(tracker), old(View()), CLOSED_TOOL, false, now);
        && reply == step.reply && View() == step.handle
        && (tracker != null ==> tracker.requested == old(tracker.requested) + step.writes)
    {
      reply := Finish(CLOSED_TOOL, false, now);
    }
  }

  /** recordToolPayloadResult: a text that is refused leaves no attribute. */
  method RecordedResult(s: Settings, raw: Bytes) returns (text: Option<Bytes>)
    ensures text == ToolPayload.ToolAttribute(s.payload, raw)
  {
    hide ToolPayload.ToolInput, ToolPayload.BoundedTool, ToolPayload.SanitizeTool;
    if !s.payload.record || raw == [] {
      return None;
    }
    var invalid := ToolPayload.ValidateToolJSONInput(raw);
    if invalid.Some? {
      return None;
    }
    var encoded := ToolPayload.BoundedToolJSON(ToolPayload.SanitizeTool(s.payload.policy, raw), s.payload.limit);
    if encoded.Err? || encoded.value == [] {
      return None;
    }
    return Some(encoded.value);
  }

  class RetrievalHandle {
    const tracker: Tracker?
    const started: Option<int>
    var finished: bool
    var span: seq<SpanEvent>

    constructor (tracker: Tracker?, now: int)
      ensures this.tracker == tracker
      ensures View() == Handle(RetrievalKind, tracker != null, Some(now), false, [])
    {
      this.tracker := tracker;
      started := Some(now);
      finished := false;
      span := [];
    }

    function View(): Handle
      reads this
    {
      Handle(RetrievalKind, tracker != null, started, finished, span)
    }

    method Finish(result: RetrievalResult) returns (reply: Reply)
      modifies this
      ensures var step := FinishRetrieval(SettingsOf(tracker), old(View()), result);
        && reply == step.reply && View() == step.handle && step.writes == []
    {
      hide ResolveFor, Documents.Prepared, Documents.WiresJson, BoundedJson.BoundedArray, Documents.ProtectWires;
      if started == None {
        return Missing;
      }
      if finished {
        return Finalized;
      }
      var documents := Documents.PrepareRetrievalDocuments(result.returned, result.documents);
      if documents == None {
        return Rejected;
      }
      var outcome := ResolveFor(SettingsOf(tracker), View(), result.status, result.failure, result.errorClass);
      match outcome {
        case Invalid =>
          return Rejected;
        case Panic =>
          finished := true;
          span := if tracker == null then span else span + PANIC_EVENTS;
          return Panicked;
        case Resolved(_, _) =>
      }
      ghost var wires := documents.value[..];
      var encoded: Bytes, truncated := "", false;
      if tracker != null && documents.value.Length > 0 {
        var s := tracker.settings;
        Documents.ProtectRetrievalDocuments(documents.value, s.payload.policy, s.hash);
        assert documents.value[..] == Documents.ProtectWires(s.payload.policy, s.hash, wires);
        var bounded := BoundedJson.BoundedJSONArray(JsonTree.JArr(Documents.WiresJson(documents.value[..])),
          s.payload.limit);
        if bounded.Err? {
          return Rejected;
        }
        encoded, truncated := bounded.value.0, bounded.value.1;
      }
      assert DocumentsText(SettingsOf(tracker), View(), wires) == Some((encoded, truncated));
      finished := true;
      if tracker != null {
        span := span + [Retrieved(result.returned, encoded, truncated), OutcomeSet(outcome.status, outcome.errorClass)];
        span := span + [Ended];
      }
      return Done;
    }

    method Close() returns (reply: Reply)
      modifies this
      ensures var step := CloseRetrieval(old(View()));
        && reply == step.reply && View() == step.handle && step.writes == []
    {
      if started == None {
        return Missing;
      }
      if finished {
        return Finalized;
      }
      finished := true;
      if tracker != null {
        span := span + [OutcomeSet(UNSET, "")];
        span := span + [Ended];
      }
      return Done;
    }
  }

  class InvocationHandle {
    const tracker: Tracker?
    const kind: Bytes
    const locality: Bytes
    const started: Option<int>
    var finished: bool
    var span: seq<SpanEvent>

    constructor (tracker: Tracker?, kind: Bytes, locality: Bytes, now: int)
      ensures this.tracker == tracker
      ensures View() == Handle(Kind.InvocationKind(kind, locality), tracker != null, Some(now), false, [])
    {
      this.tracker := tracker;
      this.kind := kind;
      this.locality := locality;
      started := Some(now);
      finished := false;
      span := [];
    }

    function View(): Handle
      reads this
    {
      Handle(Kind.InvocationKind(kind, locality), tracker != null, started, finished, span)
    }

    method Finish(result: InvocationResult, now: int) returns (reply: Reply)
      requires Usable(tracker)
      modifies this, Shared(tracker)
      ensures Usable(tracker)
      ensures var step := FinishInvocation(SettingsOf(tracker), old(View()), result, now);
        && reply == step.reply && View() == step.handle
        && (tracker != null ==> tracker.requested == old(tracker.requested) + step.writes)
    {
      hide InvocationWrites, ResolveFor, Tracker.Valid;
      if tracker != null {
        AddEmpty(tracker.requested);
      }
      if started == None {
        return Missing;
      }
      if finished {
        return Finalized;
      }
      var outcome := ResolveFor(SettingsOf(tracker), View(), result.status, result.failure, result.errorClass);
      match outcome {
        case Invalid =>
          return Rejected;
        case Panic =>
          finished := true;
          span := if tracker == null then span else span + PANIC_EVENTS;
          return Panicked;
        case Resolved(_, _) =>
      }
      finished := true;
      if tracker != null {
        span := span + [OutcomeSet(outcome.status, outcome.errorClass)];
        tracker.RecordInvocationDuration(kind, locality, now - started.value, outcome.status);
        span := span + [Ended];
      }
      return Done;
    }

    method Close(now: int) returns (reply: Reply)
      requires Usable(tracker)
      modifies this, Shared(tracker)
      ensures Usable(tracker)
      ensures var step := FinishInvocation(SettingsOf(tracker), old(View()), CLOSED_INVOCATION, now);
        && reply == step.reply && View() == step.handle
        && (tracker != null ==> tracker.requested == old(tracker.requested) + step.writes)
    {
      reply := Finish(CLOSED_INVOCATION, now);
    }
  }
}
