/** Every interleaving of calls on any number of handles of one tracker. */
module HandleRuns {
  import opened Bytes
  import opened Usage
  import opened Outcome
  import opened Cardinality
  import opened Recorder
  import opened Tracking
  import opened Handles
  import opened Accounting
  import PayloadBounds
  import PayloadGuards
  import ReferencePolicy
  import Sanitize
  import BoundedJson
  import Payload
  import ToolPayload
  import Documents = RetrievalDocuments

  /** All handles by identity, and everything they asked the tracker to write. */
  datatype World = World(handles: map<nat, Handle>, writes: seq<Write>)

  const EMPTY: World := World(map[], [])

  datatype Action =
    | Start(id: nat, kind: Kind, tracked: bool, at: int)
    | On(id: nat, call: Call, now: int)

  /** An action that the program can take: identities are fresh, starts validated, methods offered. */
  predicate Possible(w: World, a: Action)
  {
    match a
    case Start(id, kind, _, _) => id !in w.handles && Startable(kind)
    case On(id, call, _) => id in w.handles && Startable(w.handles[id].kind) && Offers(w.handles[id].kind, call)
  }

  function StepOf(s: Settings, w: World, a: Action): Step
    requires Possible(w, a) && a.On?
  {
    Apply(s, w.handles[a.id], a.call, a.now)
  }

  function Next(s: Settings, w: World, a: Action): World
  {
    if !Possible(w, a) then w
    else
      match a
      case Start(id, kind, tracked, at) => w.(handles := w.handles[id := Handle(kind, tracked, Some(at), false, [])])
      case On(id, _, _) =>
        var step := StepOf(s, w, a);
        World(w.handles[id := step.handle], w.writes + step.writes)
  }

  function Run(s: Settings, w: World, actions: seq<Action>): World
  {
    if actions == [] then w else Next(s, Run(s, w, actions[..|actions| - 1]), actions[|actions| - 1])
  }

  // ----- one step

  function Ends(span: seq<SpanEvent>): nat
  {
    if span == [] then 0 else Ends(span[..|span| - 1]) + if span[|span| - 1] == Ended then 1 else 0
  }

  /** A known outcome, with an error class exactly for an error. */
  predicate CoherentOutcome(status: Bytes, errorClass: Bytes)
  {
    status in STATUSES && (errorClass != "" <==> status == ERROR)
  }

  /** Neither an outcome nor an end. */
  predicate Open(events: seq<SpanEvent>)
  {
    forall i :: 0 <= i < |events| ==> !events[i].OutcomeSet? && events[i] != Ended
  }

  function Closing(before: seq<SpanEvent>, status: Bytes, errorClass: Bytes, panicked: bool): seq<SpanEvent>
  {
    before + [OutcomeSet(status, errorClass)] + (if panicked then [CallbackPanic] else []) + [Ended]
  }

  /** A span with one coherent outcome and one end, the end last; after a panic the outcome is an error. */
  ghost predicate Closed(span: seq<SpanEvent>)
  {
    exists before, status, errorClass, panicked ::
      Open(before) && CoherentOutcome(status, errorClass) && (panicked ==> status == ERROR)
      && span == Closing(before, status, errorClass, panicked)
  }

  /** Nothing on the span before finalization; after it, one outcome and exactly one end, in last place. */
  ghost predicate WellEnded(h: Handle)
  {
    && Startable(h.kind) && h.started.Some?
    && if h.finished && h.tracked then Closed(h.span) && Ends(h.span) == 1 else h.span == []
  }

  /** What every step of every handle has in common. */
  ghost predicate Lawful(h: Handle, step: Step)
  {
    && step.handle.kind == h.kind && step.handle.tracked == h.tracked && step.handle.started == h.started
    && (step.reply in {Rejected, Finalized, Missing} ==> step.handle == h && step.writes == [])
    && (h.finished && h.started.Some? ==> step.reply == Finalized)
    && (step.reply == Panicked ==> step.handle.finished && step.writes == [])
    && (step.handle.finished && !h.finished ==> step.reply in {Done, Panicked})
    && (step.writes != [] ==> step.handle.finished && !h.finished && h.tracked && step.reply == Done)
    && (WellEnded(h) ==> WellEnded(step.handle))
  }

  lemma {:induction false} NoEnds(events: seq<SpanEvent>)
    requires forall i :: 0 <= i < |events| ==> events[i] != Ended
    ensures Ends(events) == 0
  {
    if events != [] {
      NoEnds(events[..|events| - 1]);
    }
  }

  lemma ClosingEndsOnce(before: seq<SpanEvent>, status: Bytes, errorClass: Bytes, panicked: bool)
    requires Open(before) && CoherentOutcome(status, errorClass) && (panicked ==> status == ERROR)
    ensures Closed(Closing(before, status, errorClass, panicked))
      && Ends(Closing(before, status, errorClass, panicked)) == 1
  {
    hide CoherentOutcome;
    var span := Closing(before, status, errorClass, panicked);
    NoEnds(span[..|span| - 1]);
  }

  lemma CommitLawful(h: Handle, before: seq<SpanEvent>, status: Bytes, errorClass: Bytes, writes: seq<Write>)
    requires !h.finished && Open(before) && CoherentOutcome(status, errorClass)
    ensures Lawful(h, Commit(h, before + [OutcomeSet(status, errorClass)], writes))
  {
    hide Startable, Ends, Open, CoherentOutcome, Closed;
    ClosingEndsOnce(before, status, errorClass, false);
    if h.span == [] {
      assert [] + (before + [OutcomeSet(status, errorClass)]) + [Ended] == Closing(before, status, errorClass, false);
    }
  }

  lemma UntrackedLawful(h: Handle)
    requires !h.finished && !h.tracked
    ensures Lawful(h, Commit(h, [], []))
  {
    hide Startable, Ends, Closed;
  }

  lemma AbortLawful(h: Handle)
    requires !h.finished
    ensures Lawful(h, Abort(h))
  {
    hide Startable, Ends, Closed;
    assert Open([]);
    ClosingEndsOnce([], ERROR, UNKNOWN, true);
    if h.span == [] {
      assert [] + PANIC_EVENTS == Closing([], ERROR, UNKNOWN, true);
    }
  }

  lemma RefuseLawful(h: Handle, reply: Reply)
    requires h.finished && h.started.Some? ==> reply == Finalized
    requires reply != Panicked
    ensures Lawful(h, Refuse(h, reply))
  {
    hide WellEnded;
  }

  lemma OperationLawful(s: Settings, h: Handle, result: OperationResult, attrs: seq<(Bytes, Bytes)>, panics: bool,
      now: int)
    requires h.kind.OperationKind? && Startable(h.kind)
    ensures Lawful(h, FinishOperation(s, h, result, attrs, panics, now))
  {
    hide Lawful, Startable, ResultAccepted, Payload.PayloadAttributes, PolicyReached, InteractionWrites, Commit, Abort,
         Refuse, StreamingPart;
    var step := FinishOperation(s, h, result, attrs, panics, now);
    if h.started == None {
      RefuseLawful(h, Missing);
    } else if h.finished {
      RefuseLawful(h, Finalized);
    } else {
      RefuseLawful(h, Rejected);
      AbortLawful(h);
      if !h.tracked {
        UntrackedLawful(h);
      } else if ResultAccepted(s, h, result, now) {
        var payload := Payload.PayloadAttributes(s.payload, result.payload);
        if payload.Some? {
          CommitOperationLawful(s, h, result, attrs, payload.value, now);
        }
      }
    }
  }

  lemma AcceptedFacts(s: Settings, h: Handle, result: OperationResult, now: int)
    requires h.kind.OperationKind? && Startable(h.kind) && h.started.Some? && h.tracked
      && ResultAccepted(s, h, result, now)
    ensures var outcome := ResolveModelOutcome(result.status, result.errorType);
      outcome.Resolved? && CoherentOutcome(outcome.status, outcome.errorClass)
    ensures TrackedUsage(Permitted(s), result.usage) && |h.kind.meta.purpose| <= MAX_METRIC_VALUE
    ensures ValidInt(result.usage.outputTokens, "token")
    ensures h.kind.meta.operation != ""
  {
  }

  lemma CommitOperationLawful(s: Settings, h: Handle, result: OperationResult, attrs: seq<(Bytes, Bytes)>,
      payload: seq<Payload.Attribute>, now: int)
    requires h.kind.OperationKind? && Startable(h.kind) && h.started.Some? && h.tracked
      && ResultAccepted(s, h, result, now)
    requires !h.finished
    ensures Lawful(h, CommitOperation(s, h, result, attrs, payload, now))
  {
    hide Lawful, Startable, ResultAccepted, InteractionWrites, Commit, StreamingPart;
    AcceptedFacts(s, h, result, now);
    var outcome := ResolveModelOutcome(result.status, result.errorType);
    var meta := FinalMeta(h.kind.meta, outcome.status, outcome.errorClass, result.responseModel, now - h.started.value);
    var writes := if h.kind.logical then []
      else InteractionWrites(s, meta, result.usage) + StreamingPart(s, meta, result);
    var host := if attrs == [] then [] else [HostAttributes(attrs)];
    var record := [StatusAttribute(outcome.status), Interacted(meta, payload, WithPurpose(meta, result.usage))];
    CommitLawful(h, host + record, outcome.status, outcome.errorClass, writes);
    assert host + record + [OutcomeSet(outcome.status, outcome.errorClass)]
        == host + (record + [OutcomeSet(outcome.status, outcome.errorClass)]);
    assert record + [OutcomeSet(outcome.status, outcome.errorClass)]
        == [StatusAttribute(outcome.status), Interacted(meta, payload, WithPurpose(meta, result.usage)),
            OutcomeSet(outcome.status, outcome.errorClass)];
  }

  lemma ResolvedCoherent(s: Settings, h: Handle, status: Bytes, failure: Failure, errorClass: Bytes)
    requires ResolveFor(s, h, status, failure, errorClass).Resolved?
    ensures var r := ResolveFor(s, h, status, failure, errorClass);
      CoherentOutcome(r.status, r.errorClass)
  {
  }

  lemma ToolLawful(s: Settings, h: Handle, result: ToolResult, panics: bool, now: int)
    requires h.kind.ToolKind?
    ensures Lawful(h, FinishTool(s, h, result, panics, now))
  {
    hide Lawful, Startable, ToolPayload.ToolAttribute, ToolPolicyReached, ResolveFor, Commit, Abort, Refuse, ToolWrites,
         ToolLabel;
    if h.started == None {
      RefuseLawful(h, Missing);
    } else if h.finished {
      RefuseLawful(h, Finalized);
    } else {
      RefuseLawful(h, Rejected);
      AbortLawful(h);
      match ResolveFor(s, h, result.status, result.failure, result.errorClass) {
        case Resolved(status, errorClass) =>
          var text := ToolPayload.ToolAttribute(s.payload, result.result);
          var recorded := if text == None then [] else [ToolResulted(text.value)];
          ResolvedCoherent(s, h, result.status, result.failure, result.errorClass);
          CommitLawful(h, recorded + [ToolFailed(status == ERROR)], status, errorClass,
                       ToolWrites(ToolLabel(s, h.kind.name), now - h.started.value, status, errorClass));
          assert recorded + [ToolFailed(status == ERROR)] + [OutcomeSet(status, errorClass)]
              == recorded + [ToolFailed(status == ERROR), OutcomeSet(status, errorClass)];
        case Invalid =>
        case Panic =>
      }
    }
  }

  lemma RetrievalLawful(s: Settings, h: Handle, result: RetrievalResult)
    requires h.kind.RetrievalKind?
    ensures Lawful(h, FinishRetrieval(s, h, result))
  {
    hide Lawful, Startable, ResolveFor, Commit, Abort, Refuse, DocumentsText, Documents.Prepared;
    if h.started == None {
      RefuseLawful(h, Missing);
    } else if h.finished {
      RefuseLawful(h, Finalized);
    } else {
      RefuseLawful(h, Rejected);
      AbortLawful(h);
      var resolution := ResolveFor(s, h, result.status, result.failure, result.errorClass);
      match (Documents.Prepared(result.returned, result.documents), resolution) {
        case (Some(wires), Resolved(status, errorClass)) =>
          match DocumentsText(s, h, wires) {
            case Some((text, truncated)) =>
              ResolvedCoherent(s, h, result.status, result.failure, result.errorClass);
              CommitLawful(h, [Retrieved(result.returned, text, truncated)], status, errorClass, []);
              assert [Retrieved(result.returned, text, truncated)] + [OutcomeSet(status, errorClass)]
                  == [Retrieved(result.returned, text, truncated), OutcomeSet(status, errorClass)];
            case None =>
          }
        case _ =>
      }
    }
  }

  lemma InvocationLawful(s: Settings, h: Handle, result: InvocationResult, now: int)
    requires h.kind.InvocationKind?
    ensures Lawful(h, FinishInvocation(s, h, result, now))
  {
    hide Lawful, Startable, ResolveFor, Commit, Abort, Refuse, InvocationWrites;
    if h.started == None {
      RefuseLawful(h, Missing);
    } else if h.finished {
      RefuseLawful(h, Finalized);
    } else {
      RefuseLawful(h, Rejected);
      AbortLawful(h);
      match ResolveFor(s, h, result.status, result.failure, result.errorClass) {
        case Resolved(status, errorClass) =>
          ResolvedCoherent(s, h, result.status, result.failure, result.errorClass);
          CommitLawful(h, [], status, errorClass,
                       InvocationWrites(h.kind.kind, h.kind.locality, now - h.started.value, status));
          assert [] + [OutcomeSet(status, errorClass)] == [OutcomeSet(status, errorClass)];
        case Invalid =>
        case Panic =>
      }
    }
  }

  lemma CloseLawful(s: Settings, h: Handle, now: int)
    requires Startable(h.kind)
    ensures Lawful(h, Apply(s, h, CallClose, now))
  {
    hide Lawful, Startable, Commit, Refuse, InteractionWrites, FinishTool, FinishInvocation;
    match h.kind {
      case ToolKind(_) => ToolLawful(s, h, CLOSED_TOOL, false, now);
      case InvocationKind(_, _) => InvocationLawful(s, h, CLOSED_INVOCATION, now);
      case RetrievalKind =>
        if h.started == None {
          RefuseLawful(h, Missing);
        } else if h.finished {
          RefuseLawful(h, Finalized);
        } else {
          CommitLawful(h, [], UNSET, "", []);
          assert [] + [OutcomeSet(UNSET, "")] == [OutcomeSet(UNSET, "")];
        }
      case OperationKind(_, _) =>
        if h.started == None {
          RefuseLawful(h, Missing);
        } else if h.finished {
          RefuseLawful(h, Finalized);
        } else {
          NoUsageAccepted(s);
          var meta := FinalMeta(h.kind.meta, UNSET, "", "", now - h.started.value);
          assert |meta.purpose| <= MAX_METRIC_VALUE by { OperationPurpose(h.kind); }
          var record := Interacted(meta, [], WithPurpose(meta, NO_USAGE));
          CommitLawful(h, [record], UNSET, "", if h.kind.logical then [] else InteractionWrites(s, meta, NO_USAGE));
          assert [record] + [OutcomeSet(UNSET, "")] == [record, OutcomeSet(UNSET, "")];
        }
    }
  }

  lemma ApplyLawful(s: Settings, h: Handle, c: Call, now: int)
    requires Startable(h.kind) && Offers(h.kind, c)
    ensures Lawful(h, Apply(s, h, c, now))
  {
    hide Lawful, Startable, FinishOperation, FinishTool, FinishRetrieval, FinishInvocation, CloseOperation,
         CloseRetrieval, UsageAccepted;
    match c {
      case CallFinishOperation(result, attrs, panics) => OperationLawful(s, h, result, attrs, panics, now);
      case CallUpdate(usage) =>
        RefuseLawful(h, Update(s, h, usage).reply);
      case CallFinishTool(result, panics) => ToolLawful(s, h, result, panics, now);
      case CallFinishRetrieval(result) => RetrievalLawful(s, h, result);
      case CallFinishInvocation(result) => InvocationLawful(s, h, result, now);
      case CallClose => CloseLawful(s, h, now);
    }
  }

  // ----- whole runs

  ghost predicate AllWellEnded(w: World) { forall id :: id in w.handles ==> WellEnded(w.handles[id]) }

  lemma NextWellEnded(s: Settings, w: World, a: Action)
    requires AllWellEnded(w)
    ensures AllWellEnded(Next(s, w, a))
  {
    hide Apply, WellEnded, Offers, Startable;
    if Possible(w, a) {
      match a {
        case Start(id, kind, tracked, at) => FreshWellEnded(kind, tracked, at);
        case On(id, call, now) => ApplyLawful(s, w.handles[id], call, now);
      }
    }
  }

  lemma FreshWellEnded(kind: Kind, tracked: bool, at: int)
    requires Startable(kind)
    ensures WellEnded(Handle(kind, tracked, Some(at), false, []))
  {
  }

  /** Over every interleaving: if its handle is finished a span carries one coherent outcome and has
      ended exactly once, with nothing after the end; if it is not the span is untouched. */
  lemma {:induction false} SpansEndExactlyOnce(s: Settings, actions: seq<Action>)
    ensures AllWellEnded(Run(s, EMPTY, actions))
  {
    hide AllWellEnded, Next;
    if actions == [] {
      assert AllWellEnded(EMPTY) by { NothingStarted(); }
    } else {
      SpansEndExactlyOnce(s, actions[..|actions| - 1]);
      NextWellEnded(s, Run(s, EMPTY, actions[..|actions| - 1]), actions[|actions| - 1]);
    }
  }

  lemma NothingStarted()
    ensures AllWellEnded(EMPTY)
  {
  }

  /** A refused call leaves every handle and every instrument as it was. */
  lemma RefusedCallsChangeNothing(s: Settings, w: World, a: Action)
    requires Possible(w, a) && a.On? && StepOf(s, w, a).reply in {Rejected, Finalized, Missing}
    ensures Next(s, w, a) == w
  {
    hide Apply, WellEnded, Offers, Startable;
    ApplyLawful(s, w.handles[a.id], a.call, a.now);
    AddEmpty(w.writes);
    assert w.handles[a.id := w.handles[a.id]] == w.handles;
  }

  /** A refused call can be struck from a run: everything that follows goes as if it had never
      been made. */
  lemma {:induction false} RefusedCallsErase(s: Settings, w: World, before: seq<Action>, a: Action, after: seq<Action>)
    requires var at := Run(s, w, before);
      Possible(at, a) && a.On? && StepOf(s, at, a).reply in {Rejected, Finalized, Missing}
    ensures Run(s, w, before + [a] + after) == Run(s, w, before + after)
    decreases |after|
  {
    hide Next, StepOf, Possible;
    if after == [] {
      RefusedCallsChangeNothing(s, Run(s, w, before), a);
      RunSnoc(s, w, before, a);
      AddEmpty(before + [a]);
      AddEmpty(before);
    } else {
      var init, last := after[..|after| - 1], after[|after| - 1];
      RefusedCallsErase(s, w, before, a, init);
      RunSnoc(s, w, before + [a] + init, last);
      RunSnoc(s, w, before + init, last);
      assert before + [a] + after == before + [a] + init + [last];
      assert before + after == before + init + [last];
    }
  }

  lemma RunSnoc(s: Settings, w: World, actions: seq<Action>, a: Action)
    ensures Run(s, w, actions + [a]) == Next(s, Run(s, w, actions), a)
  {
    hide Next;
    DropTake(actions, [a]);
  }

  lemma NextKeeps(s: Settings, w: World, a: Action, id: nat)
    requires id in w.handles && w.handles[id].finished && w.handles[id].started.Some?
    ensures id in Next(s, w, a).handles && Next(s, w, a).handles[id] == w.handles[id]
  {
    hide Apply, WellEnded, Offers, Startable;
    if Possible(w, a) && a.On? {
      ApplyLawful(s, w.handles[a.id], a.call, a.now);
    }
  }

  /** Finalization is irrevocable: no later call changes the handle or its span. */
  lemma {:induction false} FinishedForever(s: Settings, w: World, actions: seq<Action>, id: nat)
    requires id in w.handles && w.handles[id].finished && w.handles[id].started.Some?
    ensures id in Run(s, w, actions).handles && Run(s, w, actions).handles[id] == w.handles[id]
  {
    hide Next;
    if actions != [] {
      FinishedForever(s, w, actions[..|actions| - 1], id);
      NextKeeps(s, Run(s, w, actions[..|actions| - 1]), actions[|actions| - 1], id);
    }
  }

  // ----- accounting

  /** A result whose resources were accounted: the final usage of a physical operation. */
  datatype Committed = Committed(id: nat, usage: Usage)

  function CommitOf(s: Settings, w: World, a: Action): seq<Committed>
  {
    if Possible(w, a) && a.On? && a.call.CallFinishOperation? && StepOf(s, w, a).reply == Done
       && w.handles[a.id].tracked && !w.handles[a.id].kind.logical
    then [Committed(a.id, a.call.operation.usage)]
    else []
  }

  function Commits(s: Settings, actions: seq<Action>): seq<Committed>
  {
    if actions == [] then []
    else
      var init := actions[..|actions| - 1];
      Commits(s, init) + CommitOf(s, Run(s, EMPTY, init), actions[|actions| - 1])
  }

  predicate FinishedIn(w: World, id: nat)
  {
    id in w.handles && w.handles[id].finished && w.handles[id].started.Some?
  }

  /** No handle is accounted twice, and only finished ones are accounted. */
  lemma {:induction false} AccountedOnce(s: Settings, actions: seq<Action>)
    ensures forall i :: 0 <= i < |Commits(s, actions)| ==> FinishedIn(Run(s, EMPTY, actions), Commits(s, actions)[i].id)
    ensures forall i, j :: 0 <= i < j < |Commits(s, actions)| ==> Commits(s, actions)[i].id != Commits(s, actions)[j].id
  {
    hide Next, CommitOf;
    if actions != [] {
      var init, last := actions[..|actions| - 1], actions[|actions| - 1];
      AccountedOnce(s, init);
      var w := Run(s, EMPTY, init);
      AccountedStep(s, w, last);
      forall i | 0 <= i < |Commits(s, init)|
        ensures FinishedIn(Run(s, EMPTY, actions), Commits(s, init)[i].id)
      {
        assert FinishedIn(w, Commits(s, init)[i].id);
        NextKeeps(s, w, last, Commits(s, init)[i].id);
      }
    }
  }

  lemma AccountedStep(s: Settings, w: World, a: Action)
    ensures |CommitOf(s, w, a)| <= 1
    ensures CommitOf(s, w, a) != [] ==>
              (!FinishedIn(w, CommitOf(s, w, a)[0].id) && FinishedIn(Next(s, w, a), CommitOf(s, w, a)[0].id))
  {
    hide Startable, WellEnded, Offers;
    if CommitOf(s, w, a) != [] {
      DoneFinishes(s, w.handles[a.id], a.call, a.now);
    }
  }

  lemma DoneFinishes(s: Settings, h: Handle, c: Call, now: int)
    requires Startable(h.kind) && Offers(h.kind, c) && c.CallFinishOperation? && Apply(s, h, c, now).reply == Done
    ensures !h.finished && h.started.Some? && Apply(s, h, c, now).handle.finished
      && Apply(s, h, c, now).handle.started.Some?
  {
    hide Startable, ResultAccepted, Payload.PayloadAttributes, PolicyReached, InteractionWrites, StreamingPart;
    if h.started.Some? && !h.finished && ResultAccepted(s, h, c.operation, now) {
      AcceptedMeansResolved(s, h, c.operation, now);
    }
  }

  lemma AcceptedMeansResolved(s: Settings, h: Handle, result: OperationResult, now: int)
    requires h.started.Some? && ResultAccepted(s, h, result, now)
    ensures ResolveModelOutcome(result.status, result.errorType).Resolved?
  {
  }

  /** What the committed results report for an instrument, before any recording. */
  function Reported(cs: seq<Committed>, i: Instrument): Tally
  {
    if cs == [] then NOTHING
    else Plus(Reported(cs[..|cs| - 1], i), TallyItems(UsageItems(cs[|cs| - 1].usage), i))
  }

  /** Every metadata policy of the library keeps a name non-empty. */
  ghost predicate KeepsNames(s: Settings)
  {
    forall name :: name != "" ==> s.labels(OperationName, name) != ""
  }

  lemma BuiltinPoliciesKeepNames(s: Settings, policy: Payload.Policy, hash: Sanitize.Hash, operations: set<Bytes>)
    requires s.labels == ReferencePolicy.PolicyLabels(policy, hash, s.profile.dimensions, operations)
    ensures KeepsNames(s)
  {
    hide ReferencePolicy.Metadata;
    forall name | name != ""
      ensures s.labels(OperationName, name) != ""
    {
      assert s.labels(OperationName, name)
          == ReferencePolicy.Metadata(policy, hash, s.profile.dimensions, operations, OperationName, name);
    }
  }

  lemma {:induction false} SilentWrites(ws: seq<Write>, i: Instrument)
    requires i in AUDITED && forall k :: 0 <= k < |ws| ==> ws[k].instrument !in AUDITED
    ensures Witness(ws, i) == NOTHING
  {
    hide TallyWrite, Plus;
    PlusAssoc(NOTHING, NOTHING, NOTHING);
    if ws != [] {
      SilentWrites(ws[1..], i);
      OtherInstrument(ws[0], i);
    }
  }

  lemma OtherInstrument(w: Write, i: Instrument)
    requires w.instrument != i
    ensures TallyWrite(w, i) == NOTHING
  {
  }

  lemma InteractionWitness(s: Settings, meta: Meta, usage: Usage, i: Instrument)
    requires TrackedUsage(Permitted(s), usage) && |meta.purpose| <= MAX_METRIC_VALUE && meta.status in STATUSES
    requires i in AUDITED && s.labels(OperationName, meta.operation) != ""
    ensures Witness(InteractionWrites(s, meta, usage), i) == TallyItems(UsageItems(usage), i)
  {
    hide TrackedUsage, UsageWrites, DurationWrites, Witness, TallyItems, ValidUsage, UsageItems, WithPurpose, Plus;
    PurposeStaysValid(s, meta, usage);
    var full := WithPurpose(meta, usage);
    TrackedIsValid(s, full);
    WitnessConcat(UsageWrites(s.labels, meta, full), DurationWrites(s.labels, meta), i);
    UsageWitness(s.labels, meta, full, i);
    IntervalsAreNotAudited(s.labels, meta, i);
    PurposeIsNoAmount(meta, usage);
    PlusAssoc(TallyItems(UsageItems(usage), i), NOTHING, NOTHING);
  }

  lemma TrackedIsValid(s: Settings, usage: Usage)
    requires TrackedUsage(Permitted(s), usage)
    ensures ValidUsage(usage)
  {
  }

  lemma StreamingSilent(s: Settings, meta: Meta, result: OperationResult, i: Instrument)
    requires i in AUDITED
    ensures Witness(StreamingPart(s, meta, result), i) == NOTHING
  {
    hide BaseAttributes, MetricMeta, With, Witness;
    SilentWrites(StreamingPart(s, meta, result), i);
  }

  /** What one step writes to a usage instrument is what the committed result reports. */
  lemma StepWitness(s: Settings, w: World, a: Action, i: Instrument)
    requires KeepsNames(s) && i in AUDITED && Possible(w, a) && a.On?
    ensures Witness(StepOf(s, w, a).writes, i) == Reported(CommitOf(s, w, a), i)
  {
    hide Startable, WellEnded, Witness, Reported, FinishOperation, FinishTool, FinishRetrieval, FinishInvocation,
         CloseOperation, KeepsNames;
    var h := w.handles[a.id];
    NoWrites(i);
    ReportedNone(i);
    match a.call {
      case CallFinishOperation(result, attrs, panics) =>
        FinishWitness(s, h, result, attrs, panics, a.now, i);
        ReportedOne(a.id, result.usage, i);
      case CallFinishTool(result, panics) => ToolWitness(s, h, result, panics, a.now, i);
      case CallFinishInvocation(result) => InvocationWitness(s, h, result, a.now, i);
      case CallFinishRetrieval(result) => RetrievalWitness(s, h, result);
      case CallUpdate(_) =>
      case CallClose =>
        match h.kind {
          case OperationKind(_, _) => CloseWitness(s, h, a.now, i);
          case ToolKind(_) => ToolWitness(s, h, CLOSED_TOOL, false, a.now, i);
          case RetrievalKind =>
          case InvocationKind(_, _) => InvocationWitness(s, h, CLOSED_INVOCATION, a.now, i);
        }
    }
  }

  lemma ReportedNone(i: Instrument)
    ensures Reported([], i) == NOTHING
  {
  }

  lemma ReportedOne(id: nat, usage: Usage, i: Instrument)
    ensures Reported([Committed(id, usage)], i) == TallyItems(UsageItems(usage), i)
  {
    hide TallyItems, UsageItems, Plus;
    assert [Committed(id, usage)][..0] == [];
    PlusAssoc(TallyItems(UsageItems(usage), i), NOTHING, NOTHING);
  }

  /** Whatever payload was built, the step of an accepted result is the same one but for it. */
  lemma CommitSteps(s: Settings, h: Handle, result: OperationResult, attrs: seq<(Bytes, Bytes)>, now: int)
    requires h.kind.OperationKind? && Startable(h.kind) && h.started.Some? && h.tracked
    requires ResultAccepted(s, h, result, now)
    ensures |h.kind.meta.purpose| <= MAX_METRIC_VALUE && TrackedUsage(Permitted(s), result.usage)
    ensures var outcome := ResolveModelOutcome(result.status, result.errorType);
      outcome.Resolved? && outcome.status in STATUSES
    ensures var outcome := ResolveModelOutcome(result.status, result.errorType);
      var meta := FinalMeta(h.kind.meta, outcome.status, outcome.errorClass, result.responseModel,
        now - h.started.value);
      forall payload ::
        var step := CommitOperation(s, h, result, attrs, payload, now);
        && step.reply == Done
        && step.writes == if h.kind.logical then []
                          else InteractionWrites(s, meta, result.usage) + StreamingPart(s, meta, result)
  {
    hide Startable, ResultAccepted, CommitOperation, InteractionWrites, StreamingPart, TrackedUsage;
    CommitStep(s, h, result, attrs, [], now);
    forall payload: seq<Payload.Attribute>
      ensures CommitOperation(s, h, result, attrs, payload, now).reply == Done
      ensures CommitOperation(s, h, result, attrs, payload, now).writes ==
        CommitOperation(s, h, result, attrs, [], now).writes
    {
      CommitStep(s, h, result, attrs, payload, now);
    }
  }

  lemma FinishWitness(s: Settings, h: Handle, result: OperationResult, attrs: seq<(Bytes, Bytes)>, panics: bool,
      now: int, i: Instrument)
    requires h.kind.OperationKind? && Startable(h.kind) && KeepsNames(s) && i in AUDITED
    ensures var step := FinishOperation(s, h, result, attrs, panics, now);
      Witness(step.writes, i) ==
        if step.reply == Done && h.tracked && !h.kind.logical then TallyItems(UsageItems(result.usage), i) else NOTHING
  {
    hide Startable, Witness, TallyItems, UsageItems, ResultAccepted, Payload.PayloadAttributes, PolicyReached,
         InteractionWrites, StreamingPart, Plus, CommitOperation, WithPurpose;
    NoWrites(i);
    if h.started.Some? && !h.finished && h.tracked && ResultAccepted(s, h, result, now) {
      AcceptedFacts(s, h, result, now);
      CommitSteps(s, h, result, attrs, now);
      var outcome := ResolveModelOutcome(result.status, result.errorType);
      var meta := FinalMeta(h.kind.meta, outcome.status, outcome.errorClass, result.responseModel,
        now - h.started.value);
      InteractionWitness(s, meta, result.usage, i);
      StreamingSilent(s, meta, result, i);
      WitnessConcat(InteractionWrites(s, meta, result.usage), StreamingPart(s, meta, result), i);
      PlusAssoc(TallyItems(UsageItems(result.usage), i), NOTHING, NOTHING);
    }
  }

  lemma CloseWitness(s: Settings, h: Handle, now: int, i: Instrument)
    requires h.kind.OperationKind? && Startable(h.kind) && KeepsNames(s) && i in AUDITED
    ensures Witness(CloseOperation(s, h, now).writes, i) == NOTHING
  {
    hide Startable, Witness, TallyItems, UsageItems, InteractionWrites;
    NoWrites(i);
    if h.started.Some? && !h.finished && h.tracked {
      NoUsageAccepted(s);
      OperationFacts(h.kind);
      var meta := FinalMeta(h.kind.meta, UNSET, "", "", now - h.started.value);
      InteractionWitness(s, meta, NO_USAGE, i);
      NothingReported(i);
    }
  }

  lemma OperationFacts(k: Kind)
    requires k.OperationKind? && Startable(k)
    ensures |k.meta.purpose| <= MAX_METRIC_VALUE && k.meta.operation != ""
  {
  }

  lemma NothingReported(i: Instrument)
    ensures TallyItems(UsageItems(NO_USAGE), i) == NOTHING
  {
    hide TallyItem, Plus;
    var items := UsageItems(NO_USAGE);
    AbsentItems(items, i);
  }

  lemma {:induction false} AbsentItems(items: seq<Item>, i: Instrument)
    requires forall k :: 0 <= k < |items| ==> !items[k].present
    ensures TallyItems(items, i) == NOTHING
  {
    hide Plus;
    PlusAssoc(NOTHING, NOTHING, NOTHING);
    if items != [] {
      AbsentItems(items[..|items| - 1], i);
    }
  }

  lemma ToolWitness(s: Settings, h: Handle, result: ToolResult, panics: bool, now: int, i: Instrument)
    requires h.kind.ToolKind? && i in AUDITED
    ensures Witness(FinishTool(s, h, result, panics, now).writes, i) == NOTHING
  {
    hide Witness, ToolPayload.ToolAttribute, ToolPolicyReached, ResolveFor;
    SilentWrites(FinishTool(s, h, result, panics, now).writes, i);
  }

  lemma InvocationWitness(s: Settings, h: Handle, result: InvocationResult, now: int, i: Instrument)
    requires h.kind.InvocationKind? && i in AUDITED
    ensures Witness(FinishInvocation(s, h, result, now).writes, i) == NOTHING
  {
    hide Witness, ResolveFor;
    SilentWrites(FinishInvocation(s, h, result, now).writes, i);
  }

  lemma RetrievalWitness(s: Settings, h: Handle, result: RetrievalResult)
    requires h.kind.RetrievalKind?
    ensures FinishRetrieval(s, h, result).writes == []
  {
    hide ResolveFor, DocumentsText, Documents.Prepared;
  }

  /** Conservation over every interleaving: for each usage instrument, the number and the total
      of the observations exported equal what the committed results of physical operations
      report, however starts, finishes, closes, updates and panics are ordered. */
  lemma {:induction false} UsageConserved(s: Settings, actions: seq<Action>, i: Instrument)
    requires KeepsNames(s) && i in AUDITED
    ensures Witness(RunOutput(Tracking.Start(s.profile), Run(s, EMPTY, actions).writes), i) ==
      Reported(Commits(s, actions), i)
  {
    hide Witness, Reported, Run, Commits, RunOutput;
    ExportKeepsWitness(Tracking.Start(s.profile), Run(s, EMPTY, actions).writes, i);
    WritesConserved(s, actions, i);
  }

  /** The built-in metadata policies lose no name, so usage is conserved under each of them. */
  lemma BuiltinPoliciesConserveUsage(s: Settings, policy: Payload.Policy, hash: Sanitize.Hash, operations: set<Bytes>,
    actions: seq<Action>, i: Instrument)
    requires s.labels == ReferencePolicy.PolicyLabels(policy, hash, s.profile.dimensions, operations) && i in AUDITED
    ensures Witness(RunOutput(Tracking.Start(s.profile), Run(s, EMPTY, actions).writes), i) ==
      Reported(Commits(s, actions), i)
  {
    hide Witness, Reported, Run, Commits, RunOutput, KeepsNames, ReferencePolicy.PolicyLabels;
    BuiltinPoliciesKeepNames(s, policy, hash, operations);
    UsageConserved(s, actions, i);
  }

  lemma {:induction false} WritesConserved(s: Settings, actions: seq<Action>, i: Instrument)
    requires KeepsNames(s) && i in AUDITED
    ensures Witness(Run(s, EMPTY, actions).writes, i) == Reported(Commits(s, actions), i)
  {
    hide Witness, Reported, KeepsNames, Possible, CommitOf, StepOf, Plus;
    NoWrites(i);
    ReportedNone(i);
    if actions != [] {
      var init, last := actions[..|actions| - 1], actions[|actions| - 1];
      var w := Run(s, EMPTY, init);
      WritesConserved(s, init, i);
      ReportedConcat(Commits(s, init), CommitOf(s, w, last), i);
      PlusAssoc(Reported(Commits(s, init), i), NOTHING, NOTHING);
      if Possible(w, last) && last.On? {
        StepWitness(s, w, last, i);
        WitnessConcat(w.writes, StepOf(s, w, last).writes, i);
      } else {
        NoCommit(s, w, last);
      }
    }
  }

  lemma NoCommit(s: Settings, w: World, a: Action)
    requires !(Possible(w, a) && a.On?)
    ensures CommitOf(s, w, a) == []
  {
  }

  lemma {:induction false} ReportedConcat(a: seq<Committed>, b: seq<Committed>, i: Instrument)
    ensures Reported(a + b, i) == Plus(Reported(a, i), Reported(b, i))
  {
    hide TallyItems, UsageItems, Plus;
    PlusAssoc(Reported(a, i), NOTHING, NOTHING);
    if b == [] {
      AddEmpty(a);
    } else {
      var init, last := b[..|b| - 1], b[|b| - 1];
      ReportedConcat(a, init, i);
      assert (a + b)[..|a + b| - 1] == a + init;
      PlusAssoc(Reported(a, i), Reported(init, i), TallyItems(UsageItems(last.usage), i));
    }
  }

  // ----- series

  lemma InteractionInBudget(s: Settings, meta: Meta, usage: Usage)
    requires TrackedUsage(Permitted(s), usage) && |meta.purpose| <= MAX_METRIC_VALUE && meta.status in STATUSES
    ensures LibraryWrites(Permitted(s), InteractionWrites(s, meta, usage))
  {
    hide TrackedUsage, LibraryWrite, Writes, WithPurpose;
    PurposeStaysValid(s, meta, usage);
    RecordingsAreLibraryWrites(s.labels, Permitted(s), Interaction(meta, usage));
  }

  lemma StepInBudget(s: Settings, h: Handle, c: Call, now: int)
    requires Startable(h.kind) && Offers(h.kind, c)
    ensures LibraryWrites(Permitted(s), Apply(s, h, c, now).writes)
  {
    hide Startable, LibraryWrite, FinishOperation, FinishTool, FinishRetrieval, FinishInvocation, CloseOperation;
    match c {
      case CallFinishOperation(result, attrs, panics) => FinishInBudget(s, h, result, attrs, panics, now);
      case CallFinishTool(result, panics) => ToolInBudget(s, h, result, panics, now);
      case CallFinishInvocation(result) => InvocationInBudget(s, h, result, now);
      case CallFinishRetrieval(result) => RetrievalWitness(s, h, result);
      case CallUpdate(_) =>
      case CallClose =>
        match h.kind {
          case OperationKind(_, _) => CloseInBudget(s, h, now);
          case ToolKind(_) => ToolInBudget(s, h, CLOSED_TOOL, false, now);
          case RetrievalKind =>
          case InvocationKind(_, _) => InvocationInBudget(s, h, CLOSED_INVOCATION, now);
        }
    }
  }

  lemma FinishInBudget(s: Settings, h: Handle, result: OperationResult, attrs: seq<(Bytes, Bytes)>, panics: bool,
      now: int)
    requires h.kind.OperationKind? && Startable(h.kind)
    ensures LibraryWrites(Permitted(s), FinishOperation(s, h, result, attrs, panics, now).writes)
  {
    hide Startable, LibraryWrite, ResultAccepted, Payload.PayloadAttributes, PolicyReached, InteractionWrites,
         StreamingWrites;
    if h.started.Some? && !h.finished && h.tracked && ResultAccepted(s, h, result, now) {
      AcceptedFacts(s, h, result, now);
      var outcome := ResolveModelOutcome(result.status, result.errorType);
      var meta := FinalMeta(h.kind.meta, outcome.status, outcome.errorClass, result.responseModel,
        now - h.started.value);
      InteractionInBudget(s, meta, result.usage);
      if result.streaming.Some? {
        StreamingIsLibraryWrites(s.labels, Permitted(s), meta, result.usage.outputTokens, result.streaming.value,
          meta.duration);
      }
      LibraryConcat(Permitted(s), InteractionWrites(s, meta, result.usage), StreamingPart(s, meta, result));
    }
  }

  lemma CloseInBudget(s: Settings, h: Handle, now: int)
    requires h.kind.OperationKind? && Startable(h.kind)
    ensures LibraryWrites(Permitted(s), CloseOperation(s, h, now).writes)
  {
    hide Startable, LibraryWrite, InteractionWrites;
    if h.started.Some? && !h.finished && h.tracked {
      NoUsageAccepted(s);
      OperationFacts(h.kind);
      InteractionInBudget(s, FinalMeta(h.kind.meta, UNSET, "", "", now - h.started.value), NO_USAGE);
    }
  }

  lemma ToolInBudget(s: Settings, h: Handle, result: ToolResult, panics: bool, now: int)
    requires h.kind.ToolKind?
    ensures LibraryWrites(Permitted(s), FinishTool(s, h, result, panics, now).writes)
  {
    hide LibraryWrite, ToolPayload.ToolAttribute, ToolPolicyReached, ToolWrites, ToolLabel, ResolveFor;
    if h.started.Some? {
      match ResolveFor(s, h, result.status, result.failure, result.errorClass) {
        case Resolved(status, errorClass) =>
          ResolvedStatus(s, h, result.status, result.failure, result.errorClass);
          ToolIsLibraryWrites(Permitted(s), ToolLabel(s, h.kind.name), now - h.started.value, status, errorClass);
        case Invalid =>
        case Panic =>
      }
    }
  }

  lemma ResolvedStatus(s: Settings, h: Handle, status: Bytes, failure: Failure, errorClass: Bytes)
    requires ResolveFor(s, h, status, failure, errorClass).Resolved?
    ensures ResolveFor(s, h, status, failure, errorClass).status in STATUSES
  {
  }

  lemma InvocationInBudget(s: Settings, h: Handle, result: InvocationResult, now: int)
    requires h.kind.InvocationKind? && Startable(h.kind)
    ensures LibraryWrites(Permitted(s), FinishInvocation(s, h, result, now).writes)
  {
    hide LibraryWrite, InvocationWrites, ResolveFor;
    if h.started.Some? {
      match ResolveFor(s, h, result.status, result.failure, result.errorClass) {
        case Resolved(status, errorClass) =>
          ResolvedStatus(s, h, result.status, result.failure, result.errorClass);
          InvocationIsLibraryWrites(Permitted(s), h.kind.kind, h.kind.locality, now - h.started.value, status);
        case Invalid =>
        case Panic =>
      }
    }
  }

  lemma {:induction false} RunIsLibraryWrites(s: Settings, actions: seq<Action>)
    ensures LibraryWrites(Permitted(s), Run(s, EMPTY, actions).writes)
  {
    hide LibraryWrite, Apply, Startable, Offers;
    if actions != [] {
      var w, last := Run(s, EMPTY, actions[..|actions| - 1]), actions[|actions| - 1];
      RunIsLibraryWrites(s, actions[..|actions| - 1]);
      if Possible(w, last) && last.On? {
        StepInBudget(s, w.handles[last.id], last.call, last.now);
        LibraryConcat(Permitted(s), w.writes, StepOf(s, w, last).writes);
      }
    }
  }

  /** Whatever the callers of all handles do, in whatever order, an instrument never exports
      more series than the validated profile allows. */
  lemma HandlesStayWithinBudget(s: Settings, actions: seq<Action>, i: Instrument)
    requires ValidProfile(s.profile)
    ensures |Exported(i, RunOutput(Tracking.Start(s.profile), Run(s, EMPTY, actions).writes))| <= s.profile.budget
  {
    hide ValidProfile, Exported, RunOutput, Run, LibraryWrite;
    RunIsLibraryWrites(s, actions);
    SeriesBudgetHolds(s.profile, Run(s, EMPTY, actions).writes, i);
  }

  /** Once its documents are accepted a retrieval is refused only for its outcome: protecting and
      encoding the documents cannot fail any more. */
  lemma RetrievalRefusedOnlyForInput(s: Settings, h: Handle, result: RetrievalResult)
    requires h.kind.RetrievalKind? && h.started.Some? && !h.finished && |BoundedJson.MARKER| <= s.payload.limit
    ensures FinishRetrieval(s, h, result).reply == Rejected <==>
              (Documents.Prepared(result.returned, result.documents) == None
               || ResolveFor(s, h, result.status, result.failure, result.errorClass) == Invalid)
  {
    hide ResolveFor, Documents.Prepared, BoundedJson.BoundedArray, Documents.ProtectWires, Documents.WiresJson;
    if Documents.Prepared(result.returned, result.documents).Some? {
      Documents.ProtectedDocumentsEncode(result.returned, result.documents, s.payload.policy, s.hash, s.payload.limit);
    }
  }

  /** An operation is refused exactly for an unacceptable result or a payload that its policy
      cannot record; under the raw policy and the keyless ones, only for its input. */
  lemma OperationRefusedOnlyForInput(s: Settings, h: Handle, result: OperationResult, attrs: seq<(Bytes, Bytes)>,
      now: int)
    requires h.kind.OperationKind? && Startable(h.kind) && h.started.Some? && !h.finished
    requires |BoundedJson.MARKER| <= s.payload.limit
    ensures FinishOperation(s, h, result, attrs, false, now).reply == Rejected <==>
              (!ResultAccepted(s, h, result, now)
               || (h.tracked && s.payload.record && !PayloadGuards.Recordable(s.payload.policy, result.payload)))
    ensures s.payload.record && (s.payload.policy.RawPolicy? || PayloadBounds.Keyless(s.payload.policy)) ==>
              (PayloadGuards.Recordable(s.payload.policy, result.payload) <==> Payload.Accepted(result.payload, true))
  {
    hide Startable, ResultAccepted, Payload.Accepted, InteractionWrites, StreamingPart, Payload.ChannelsAttributes,
         PayloadGuards.Recordable;
    if s.payload.record {
      PayloadGuards.RecordingSucceedsExactly(s.payload, result.payload);
    }
    if ResultAccepted(s, h, result, now) {
      AcceptedMeansResolved(s, h, result, now);
    }
  }
}
