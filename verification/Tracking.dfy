/** The tracker: validated recordings written to shared instruments (genai/helpers.go,
    genai/metrics.go, genai/tool.go, genai/invocation.go, genai/usage.go). */
module Tracking {
  import opened Bytes
  import opened Usage
  import opened Outcome
  import opened Cardinality
  import opened Recorder
  import opened MetricNames
  import UsageValidation
  import Payload
  import Sanitize

  /** The configuration a tracker is created with. */
  datatype Settings = Settings(
    profile: Profile, labels: Labels, payload: Payload.Config, hash: Sanitize.Hash, classes: set<Bytes>,
    unicode: Unicode)

  /** The name of a tool as a metric label. */
  function ToolLabel(s: Settings, name: Bytes): Bytes { MetricValue(s.unicode, name, UNKNOWN) }

  function Permitted(s: Settings): Allowed { AllowedOf(s.profile.dimensions) }

  function Start(p: Profile): State { State(p.budget, AllowedOf(p.dimensions), map[]) }

  lemma {:induction false} RunSnoc(s: State, ws: seq<Write>, w: Write)
    ensures RunState(s, ws + [w]) == NextState(RunState(s, ws), w.instrument, w.attrs)
    ensures RunOutput(s, ws + [w]) == RunOutput(s, ws) + [w.(attrs := Output(RunState(s, ws), w.instrument, w.attrs))]
    decreases |ws|
  {
    hide NextState, Output;
    if ws == [] {
      assert [w][1..] == [] && [] + [w] == [w];
    } else {
      assert (ws + [w])[1..] == ws[1..] + [w];
      RunSnoc(NextState(s, ws[0].instrument, ws[0].attrs), ws[1..], w);
    }
  }

  /** A write that one of the recordings makes. */
  ghost predicate WrittenBy(labels: Labels, allowed: Allowed, rs: seq<Recording>, w: Write)
    requires forall r :: r in rs ==> ValidRecording(allowed, r)
  {
    exists r :: r in rs && w in Writes(labels, allowed, r)
  }

  /** Concurrent recorders may interleave write by write: whatever the interleaving of the
      writes of validated recordings, no instrument exports more series than the budget. */
  lemma InterleavingsStayWithinBudget(p: Profile, labels: Labels, rs: seq<Recording>, ws: seq<Write>,
      instrument: Instrument)
    requires ValidProfile(p) && forall r :: r in rs ==> ValidRecording(AllowedOf(p.dimensions), r)
    requires forall w :: w in ws ==> WrittenBy(labels, AllowedOf(p.dimensions), rs, w)
    ensures |Exported(instrument, RunOutput(Start(p), ws))| <= p.budget
  {
    hide ValidProfile, Exported, RunOutput, LibraryWrite, ValidRecording, Writes, AllowedOf;
    var allowed := AllowedOf(p.dimensions);
    forall i | 0 <= i < |ws|
      ensures LibraryWrite(allowed, ws[i])
    {
      assert ws[i] in ws;
      var r :| r in rs && ws[i] in Writes(labels, allowed, r);
      RecordingsAreLibraryWrites(labels, allowed, r);
      var k :| 0 <= k < |Writes(labels, allowed, r)| && Writes(labels, allowed, r)[k] == ws[i];
    }
    SeriesBudgetHolds(p, ws, instrument);
  }

  class Tracker {
    const settings: Settings
    const dimensions: MetricDimensions
    /** What the recorders asked for, in order. */
    ghost var requested: seq<Write>
    /** What reached the instruments. */
    var exported: seq<Write>

    ghost predicate Valid()
      reads this, dimensions
    {
      && dimensions.View() == RunState(Start(settings.profile), requested)
      && exported == RunOutput(Start(settings.profile), requested)
    }

    constructor (settings: Settings)
      ensures Valid() && requested == [] && this.settings == settings
      ensures fresh(dimensions)
    {
      this.settings := settings;
      dimensions := new MetricDimensions(settings.profile);
      requested := [];
      exported := [];
    }

    method Record(instrument: Instrument, value: real, attrs: seq<Attribute>)
      requires Valid()
      modifies this, dimensions
      ensures Valid() && requested == old(requested) + [Write(instrument, value, attrs)]
    {
      hide NextState, Output;
      RunSnoc(Start(settings.profile), requested, Write(instrument, value, attrs));
      var out := dimensions.Normalize(instrument, attrs);
      exported := exported + [Write(instrument, value, out)];
      requested := requested + [Write(instrument, value, attrs)];
    }

    method RecordInt(instrument: Instrument, m: Measurement<int>, attrs: seq<Attribute>)
      requires Valid()
      modifies this, dimensions
      ensures Valid() && requested == old(requested) + IntWrites(instrument, m, attrs)
    {
      hide Valid;
      if m.present {
        Record(instrument, m.value as real, With(attrs, Source, m.source));
      } else {
        AddEmpty(requested);
      }
    }

    method RecordFloat(instrument: Instrument, m: Measurement<Float>, attrs: seq<Attribute>)
      requires Valid() && (m.present ==> m.value.Finite?)
      modifies this, dimensions
      ensures Valid() && requested == old(requested) + FloatWrites(instrument, m, attrs)
    {
      hide Valid;
      if m.present {
        Record(instrument, m.value.r, With(attrs, Source, m.source));
      } else {
        AddEmpty(requested);
      }
    }

    method ValidateUsage(usage: Usage) returns (ok: bool)
      ensures ok <==> TrackedUsage(Permitted(settings), usage)
    {
      var violation := UsageValidation.Validate(usage);
      if violation.Some? {
        return false;
      }
      if usage.cost.present {
        return usage.currency in Values(Permitted(settings), Currency);
      }
      return true;
    }

    method RecordUsageMetrics(meta: Meta, usage: Usage)
      requires Valid() && ValidUsage(usage)
      modifies this, dimensions
      ensures Valid() && requested == old(requested) + UsageWrites(settings.labels, meta, usage)
    {
      hide Valid, IntWrites, FloatWrites, BaseAttributes, MetricMeta, CostAttributes, HasUsage;
      ghost var before := requested;
      if !HasUsage(usage) {
        AddEmpty(requested);
        return;
      }
      var named := BaseAttributes(MetricMeta(settings.labels, meta));
      var base := if named.Some? then named.value else [];
      ghost var done: seq<Write> := [];
      AddEmpty(before);
      if named.Some? {
        RecordTokens(usage, base);
        done := TokenWrites(usage, base);
      }
      RecordFloat(Cost, usage.cost, CostAttributes(usage, base));
      Assoc(before, done, FloatWrites(Cost, usage.cost, CostAttributes(usage, base)));
      done := done + FloatWrites(Cost, usage.cost, CostAttributes(usage, base));
      RecordFloat(VideoSeconds, usage.videoSeconds, base);
      Assoc(before, done, FloatWrites(VideoSeconds, usage.videoSeconds, base));
      done := done + FloatWrites(VideoSeconds, usage.videoSeconds, base);
      RecordInt(VideoFrames, usage.videoFrames, base);
      Assoc(before, done, IntWrites(VideoFrames, usage.videoFrames, base));
    }

    method RecordTokens(usage: Usage, base: seq<Attribute>)
      requires Valid()
      modifies this, dimensions
      ensures Valid() && requested == old(requested) + TokenWrites(usage, base)
    {
      hide Valid, IntWrites;
      ghost var before := requested;
      RecordInt(InputTokens, usage.inputTokens, base);
      ghost var done := IntWrites(InputTokens, usage.inputTokens, base);
      RecordInt(OutputTokens, usage.outputTokens, base);
      Assoc(before, done, IntWrites(OutputTokens, usage.outputTokens, base));
      done := done + IntWrites(OutputTokens, usage.outputTokens, base);
      RecordInt(TokenComponent, usage.cacheWrite, With(base, TokenType, CACHE_WRITE));
      Assoc(before, done, IntWrites(TokenComponent, usage.cacheWrite, With(base, TokenType, CACHE_WRITE)));
      done := done + IntWrites(TokenComponent, usage.cacheWrite, With(base, TokenType, CACHE_WRITE));
      RecordInt(TokenComponent, usage.cacheRead, With(base, TokenType, CACHE_READ));
      Assoc(before, done, IntWrites(TokenComponent, usage.cacheRead, With(base, TokenType, CACHE_READ)));
      done := done + IntWrites(TokenComponent, usage.cacheRead, With(base, TokenType, CACHE_READ));
      RecordInt(TokenComponent, usage.reasoning, With(base, TokenType, REASONING));
      Assoc(before, done, IntWrites(TokenComponent, usage.reasoning, With(base, TokenType, REASONING)));
    }

    method RecordOperationDuration(meta: Meta)
      requires Valid()
      modifies this, dimensions
      ensures Valid() && requested == old(requested) + DurationWrites(settings.labels, meta)
    {
      hide Valid, BaseAttributes, MetricMeta;
      AddEmpty(requested);
      if meta.duration <= 0 {
        return;
      }
      var attrs := BaseAttributes(MetricMeta(settings.labels, meta));
      if attrs == None {
        return;
      }
      var status := With(attrs.value, Status, meta.status);
      if meta.errorType != "" {
        status := status + [Attribute(ErrorType, Text(meta.errorType))];
      } else {
        AddEmpty(status);
      }
      var instrument := ObservedDuration;
      if meta.interval && meta.locality == REMOTE {
        instrument := OperationDuration;
      }
      Record(instrument, Seconds(meta.duration), status);
    }

    /** recordInteractionOnSpan, its metric part. */
    method RecordInteraction(meta: Meta, usage: Usage, accounting: bool)
      requires Valid() && ValidRecording(Permitted(settings), Interaction(meta, usage))
      modifies this, dimensions
      ensures Valid()
      ensures requested == old(requested)
        + if accounting then Writes(settings.labels, Permitted(settings), Interaction(meta, usage)) else []
    {
      hide Valid, UsageWrites, DurationWrites, ValidUsage;
      ghost var before := requested;
      AddEmpty(before);
      if accounting {
        RecordUsageMetrics(meta, WithPurpose(meta, usage));
        RecordOperationDuration(meta);
        Assoc(before, UsageWrites(settings.labels, meta, WithPurpose(meta, usage)),
          DurationWrites(settings.labels, meta));
      }
    }

    method RecordStreamingQuality(meta: Meta, tokens: Measurement<int>, t: Timings, total: int)
      requires Valid()
      modifies this, dimensions
      ensures Valid() && requested == old(requested) + StreamingWrites(settings.labels, meta, tokens, t, total)
    {
      hide Valid, BaseAttributes, MetricMeta;
      ghost var before := requested;
      AddEmpty(before);
      var attrs := BaseAttributes(MetricMeta(settings.labels, meta));
      if attrs == None || !t.present {
        return;
      }
      Record(TimeToFirstToken, Seconds(t.firstToken), attrs.value);
      ghost var first := [Write(TimeToFirstToken, Seconds(t.firstToken), attrs.value)];
      AddEmpty(first);
      var window := total - t.firstToken;
      if window <= 0 || !tokens.present {
        return;
      }
      RecordDerived(attrs.value, tokens, window);
      Assoc(before, first, DerivedWrites(attrs.value, tokens, window));
    }

    method RecordDerived(base: seq<Attribute>, tokens: Measurement<int>, window: int)
      requires Valid() && window > 0 && tokens.present
      modifies this, dimensions
      ensures Valid() && requested == old(requested) + DerivedWrites(base, tokens, window)
    {
      hide Valid;
      ghost var before := requested;
      var attrs := With(base, Source, tokens.source);
      Record(TokensPerSecond, tokens.value as real / Seconds(window), With(attrs, Calculation, RATE));
      ghost var rate := [Write(TokensPerSecond, tokens.value as real / Seconds(window),
        With(attrs, Calculation, RATE))];
      AddEmpty(rate);
      if tokens.value > 1 {
        Record(TokenInterval, Seconds(window) / (tokens.value - 1) as real, With(attrs, Calculation, INTERVAL));
        Assoc(before, rate,
              [Write(TokenInterval, Seconds(window) / (tokens.value - 1) as real, With(attrs, Calculation, INTERVAL))]);
      }
    }

    method RecordToolDuration(tool: Bytes, elapsed: int, status: Bytes, errorType: Bytes)
      requires Valid()
      modifies this, dimensions
      ensures Valid() && requested == old(requested) + ToolWrites(ToolLabel(settings, tool), elapsed, status, errorType)
    {
      hide Valid, MetricValue;
      AddEmpty(requested);
      if elapsed <= 0 {
        return;
      }
      var name := SanitizeMetricValue(settings.unicode, tool, UNKNOWN);
      var attrs := [Attribute(ToolName, Text(name)), Attribute(Status, Text(if status == "" then UNSET else status))];
      AddEmpty(attrs);
      if errorType != "" {
        attrs := attrs + [Attribute(ErrorType, Text(errorType))];
      }
      Record(ToolDuration, Seconds(elapsed), attrs);
    }

    method RecordInvocationDuration(kind: Bytes, locality: Bytes, elapsed: int, status: Bytes)
      requires Valid()
      modifies this, dimensions
      ensures Valid() && requested == old(requested) + InvocationWrites(kind, locality, elapsed, status)
    {
      hide Valid;
      Record(InvocationDuration, Seconds(elapsed),
             [Attribute(InvocationKind, Text(kind)), Attribute(Locality, Text(locality)),
               Attribute(Status, Text(status))]);
    }
  }
}
