/** What the recorders write to the metric instruments (genai/helpers.go, genai/metrics.go,
    genai/tool.go, genai/invocation.go). */
module Recorder {
  import opened Bytes
  import opened Usage
  import opened Outcome
  import opened Cardinality

  datatype Meta = Meta(
    status: Bytes, provider: Bytes, operation: Bytes, purpose: Bytes, requestModel: Bytes, responseModel: Bytes,
    serverAddress: Bytes, serverPort: int, duration: int, errorType: Bytes, interval: bool, locality: Bytes)

  /** The protected form of a metadata text under a tracker's policy. */
  type Labels = (Key, Bytes) -> Bytes

  /** Durations are whole nanoseconds. */
  function Seconds(duration: int): real { duration as real / 1000000000.0 }

  function MetricMeta(labels: Labels, meta: Meta): Meta
  {
    meta.(provider := labels(Provider, meta.provider),
          operation := labels(OperationName, meta.operation),
          requestModel := if meta.requestModel == "" then "" else labels(RequestModel, meta.requestModel),
          responseModel := if meta.responseModel == "" then "" else labels(ResponseModel, meta.responseModel),
          serverAddress := if meta.serverAddress == "" then "" else labels(ServerAddress, meta.serverAddress))
  }

  function Given(k: Key, s: Bytes): seq<Attribute>
  {
    if s == "" then [] else [Attribute(k, Text(s))]
  }

  /** The attributes shared by the metrics of an operation; None when it has no name. */
  function BaseAttributes(meta: Meta): Option<seq<Attribute>>
  {
    if meta.operation == "" then None
    else
      Some([Attribute(Provider, Text(if meta.provider == "" then UNKNOWN else meta.provider)),
            Attribute(OperationName, Text(meta.operation))]
           + Given(RequestModel, meta.requestModel) + Given(ResponseModel, meta.responseModel)
           + Given(ServerAddress, meta.serverAddress)
           + if meta.serverPort > 0 then [Attribute(ServerPort, Int(meta.serverPort))] else [])
  }

  function With(attrs: seq<Attribute>, k: Key, s: Bytes): seq<Attribute>
  {
    attrs + [Attribute(k, Text(s))]
  }

  // ----- usage of an operation

  function IntWrites(instrument: Instrument, m: Measurement<int>, attrs: seq<Attribute>): seq<Write>
  {
    if m.present then [Write(instrument, m.value as real, With(attrs, Source, m.source))] else []
  }

  function FloatWrites(instrument: Instrument, m: Measurement<Float>, attrs: seq<Attribute>): seq<Write>
    requires m.present ==> m.value.Finite?
  {
    if m.present then [Write(instrument, m.value.r, With(attrs, Source, m.source))] else []
  }

  function TokenWrites(usage: Usage, base: seq<Attribute>): seq<Write>
  {
    IntWrites(InputTokens, usage.inputTokens, base)
    + IntWrites(OutputTokens, usage.outputTokens, base)
    + IntWrites(TokenComponent, usage.cacheWrite, With(base, TokenType, CACHE_WRITE))
    + IntWrites(TokenComponent, usage.cacheRead, With(base, TokenType, CACHE_READ))
    + IntWrites(TokenComponent, usage.reasoning, With(base, TokenType, REASONING))
  }

  function CostAttributes(usage: Usage, base: seq<Attribute>): seq<Attribute>
  {
    With(With(base, Purpose, if usage.purpose == "" then GENERATION else usage.purpose), Currency, usage.currency)
  }

  const GENERATION: Bytes := "generation"

  function UsageWrites(labels: Labels, meta: Meta, usage: Usage): seq<Write>
    requires ValidUsage(usage)
  {
    if !HasUsage(usage) then []
    else
      var named := BaseAttributes(MetricMeta(labels, meta));
      var base := if named.Some? then named.value else [];
      (if named.Some? then TokenWrites(usage, base) else [])
      + FloatWrites(Cost, usage.cost, CostAttributes(usage, base))
      + FloatWrites(VideoSeconds, usage.videoSeconds, base)
      + IntWrites(VideoFrames, usage.videoFrames, base)
  }

  // ----- intervals

  function DurationInstrument(meta: Meta): Instrument
  {
    if meta.interval && meta.locality == REMOTE then OperationDuration else ObservedDuration
  }

  function DurationWrites(labels: Labels, meta: Meta): seq<Write>
  {
    if meta.duration <= 0 then []
    else
      match BaseAttributes(MetricMeta(labels, meta))
      case None => []
      case Some(base) =>
        [Write(DurationInstrument(meta), Seconds(meta.duration),
               With(base, Status, meta.status) + Given(ErrorType, meta.errorType))]
  }

  datatype Timings = Timings(firstToken: int, present: bool)

  predicate ValidTimings(t: Timings, total: int)
  {
    total >= 0 && 0 <= t.firstToken <= total && (t.present || t.firstToken == 0)
  }

  function StreamingWrites(labels: Labels, meta: Meta, tokens: Measurement<int>, t: Timings, total: int): seq<Write>
  {
    match BaseAttributes(MetricMeta(labels, meta))
    case None => []
    case Some(base) =>
      if !t.present then []
      else [Write(TimeToFirstToken, Seconds(t.firstToken), base)] + DerivedWrites(base, tokens, total - t.firstToken)
  }

  function DerivedWrites(base: seq<Attribute>, tokens: Measurement<int>, window: int): seq<Write>
  {
    if window <= 0 || !tokens.present then []
    else
      var attrs := With(base, Source, tokens.source);
      [Write(TokensPerSecond, tokens.value as real / Seconds(window), With(attrs, Calculation, RATE))]
      + if tokens.value > 1
        then [Write(TokenInterval, Seconds(window) / (tokens.value - 1) as real, With(attrs, Calculation, INTERVAL))]
        else []
  }

  function ToolWrites(tool: Bytes, elapsed: int, status: Bytes, errorType: Bytes): seq<Write>
  {
    if elapsed <= 0 then []
    else
      [Write(ToolDuration, Seconds(elapsed),
             [Attribute(ToolName, Text(tool)), Attribute(Status, Text(if status == "" then UNSET else status))]
             + Given(ErrorType, errorType))]
  }

  function InvocationWrites(kind: Bytes, locality: Bytes, elapsed: int, status: Bytes): seq<Write>
  {
    [Write(InvocationDuration, Seconds(elapsed),
           [Attribute(InvocationKind, Text(kind)), Attribute(Locality, Text(locality)),
             Attribute(Status, Text(status))])]
  }

  // ----- recordings

  /** One call of the recorders after its validation. */
  datatype Recording =
    | Interaction(meta: Meta, usage: Usage)
    | Streaming(meta: Meta, tokens: Measurement<int>, timings: Timings, total: int)
    | Tool(tool: Bytes, elapsed: int, status: Bytes, errorType: Bytes)
    | Invocation(kind: Bytes, locality: Bytes, elapsed: int, status: Bytes)

  /** An unset purpose of the usage is that of the operation. */
  function WithPurpose(meta: Meta, usage: Usage): Usage
  {
    if usage.purpose == "" && meta.purpose != "" then usage.(purpose := meta.purpose) else usage
  }

  /** Tracker.validateUsage: the currency of a cost must be declared. */
  predicate TrackedUsage(allowed: Allowed, usage: Usage)
  {
    ValidUsage(usage) && (usage.cost.present ==> usage.currency in Values(allowed, Currency))
  }

  /** What the recorders establish before they write. */
  predicate ValidRecording(allowed: Allowed, r: Recording)
  {
    match r
    case Interaction(meta, usage) => TrackedUsage(allowed, WithPurpose(meta, usage)) && meta.status in STATUSES
    case Streaming(meta, tokens, timings, total) => ValidInt(tokens, "token") && ValidTimings(timings, total)
    case Tool(_, _, status, _) => status in STATUSES
    case Invocation(kind, locality, _, status) => (kind, locality) in BOUNDARIES && status in STATUSES
  }

  function Writes(labels: Labels, allowed: Allowed, r: Recording): seq<Write>
    requires ValidRecording(allowed, r)
  {
    match r
    case Interaction(meta, usage) => UsageWrites(labels, meta, WithPurpose(meta, usage)) + DurationWrites(labels, meta)
    case Streaming(meta, tokens, timings, total) => StreamingWrites(labels, meta, tokens, timings, total)
    case Tool(tool, elapsed, status, errorType) => ToolWrites(tool, elapsed, status, errorType)
    case Invocation(kind, locality, elapsed, status) => InvocationWrites(kind, locality, elapsed, status)
  }

  // ----- the semantic keys of every write are those the reserve accounts for

  predicate Plain(instrument: Instrument, attrs: seq<Attribute>)
  {
    forall i :: 0 <= i < |attrs| ==> !Semantic(instrument, attrs[i].key)
  }

  lemma {:induction false} PlainMeaning(instrument: Instrument, attrs: seq<Attribute>, more: seq<Attribute>)
    requires Plain(instrument, more)
    ensures Meaning(instrument, attrs + more) == Meaning(instrument, attrs)
  {
    hide Semantic, Meaning;
    if more == [] {
      AddEmpty(attrs);
    } else {
      var init, last := more[..|more| - 1], more[|more| - 1];
      PlainMeaning(instrument, attrs, init);
      MeaningSnoc(instrument, attrs + init, last);
      assert attrs + more == (attrs + init) + [last];
    }
  }

  lemma PlainOnly(instrument: Instrument, attrs: seq<Attribute>)
    requires Plain(instrument, attrs)
    ensures Meaning(instrument, attrs) == map[]
  {
    hide Semantic;
    PlainMeaning(instrument, [], attrs);
    assert [] + attrs == attrs;
  }

  lemma BaseIsPlain(instrument: Instrument, meta: Meta)
    requires BaseAttributes(meta).Some?
    ensures Plain(instrument, BaseAttributes(meta).value)
  {
  }

  lemma WithMeaning(instrument: Instrument, attrs: seq<Attribute>, k: Key, s: Bytes)
    ensures Meaning(instrument, With(attrs, k, s)) ==
      if Semantic(instrument, k) then Meaning(instrument, attrs)[k := Text(s)] else Meaning(instrument, attrs)
  {
    MeaningSnoc(instrument, attrs, Attribute(k, Text(s)));
  }

  lemma InOneKey(k: Key, v: Bytes, values: set<Bytes>)
    requires v in values
    ensures map[k := Text(v)] in OneKey(k, values)
  {
    assert ((v: Bytes) => map[k := Text(v)])(v) == map[k := Text(v)];
  }

  lemma InTwoKeys(k: Key, v: Bytes, values: set<Bytes>, l: Key, w: Bytes, others: set<Bytes>)
    requires v in values && w in others
    ensures map[k := Text(v), l := Text(w)] in TwoKeys(k, values, l, others)
  {
    assert ((v: Bytes, w: Bytes) => map[k := Text(v), l := Text(w)])(v, w) == map[k := Text(v), l := Text(w)];
  }

  lemma SourceMeaning(instrument: Instrument, base: seq<Attribute>, source: Bytes)
    requires Plain(instrument, base)
    ensures Meaning(instrument, With(base, Source, source)) == map[Source := Text(source)]
  {
    hide Meaning, Plain;
    PlainOnly(instrument, base);
    WithMeaning(instrument, base, Source, source);
  }

  lemma ComponentMeaning(base: seq<Attribute>, component: Bytes, source: Bytes)
    requires Plain(TokenComponent, base)
    ensures Meaning(TokenComponent, With(With(base, TokenType, component), Source, source)) ==
              map[TokenType := Text(component), Source := Text(source)]
  {
    hide Meaning, Plain;
    PlainOnly(TokenComponent, base);
    WithMeaning(TokenComponent, base, TokenType, component);
    WithMeaning(TokenComponent, With(base, TokenType, component), Source, source);
  }

  lemma CostMeaning(base: seq<Attribute>, usage: Usage, source: Bytes)
    requires Plain(Cost, base)
    ensures Meaning(Cost, With(CostAttributes(usage, base), Source, source)) ==
              map[Currency := Text(usage.currency), Source := Text(source)]
  {
    hide Meaning, Plain;
    PlainOnly(Cost, base);
    var purpose := if usage.purpose == "" then GENERATION else usage.purpose;
    WithMeaning(Cost, base, Purpose, purpose);
    WithMeaning(Cost, With(base, Purpose, purpose), Currency, usage.currency);
    WithMeaning(Cost, CostAttributes(usage, base), Source, source);
  }

  lemma SourceWrite(allowed: Allowed, instrument: Instrument, value: real, base: seq<Attribute>, source: Bytes)
    requires instrument in {InputTokens, OutputTokens, VideoSeconds, VideoFrames}
    requires Plain(instrument, base) && source in SOURCES
    ensures LibraryWrite(allowed, Write(instrument, value, With(base, Source, source)))
  {
    hide Meaning, OneKey, Plain;
    SourceMeaning(instrument, base, source);
    InOneKey(Source, source, SOURCES);
  }

  lemma ComponentWrite(allowed: Allowed, value: real, base: seq<Attribute>, component: Bytes, source: Bytes)
    requires Plain(TokenComponent, base) && component in COMPONENTS && source in SOURCES
    ensures LibraryWrite(allowed, Write(TokenComponent, value, With(With(base, TokenType, component), Source, source)))
  {
    hide Meaning, TwoKeys, Plain;
    ComponentMeaning(base, component, source);
    InTwoKeys(TokenType, component, COMPONENTS, Source, source, SOURCES);
  }

  lemma CostWrite(allowed: Allowed, value: real, base: seq<Attribute>, usage: Usage)
    requires Plain(Cost, base) && TrackedUsage(allowed, usage) && usage.cost.present
    ensures LibraryWrite(allowed, Write(Cost, value, With(CostAttributes(usage, base), Source, usage.cost.source)))
  {
    hide Meaning, TwoKeys, Plain, Values;
    CostMeaning(base, usage, usage.cost.source);
    InTwoKeys(Currency, usage.currency, Values(allowed, Currency), Source, usage.cost.source, SOURCES);
  }

  lemma LibraryConcat(allowed: Allowed, a: seq<Write>, b: seq<Write>)
    requires LibraryWrites(allowed, a) && LibraryWrites(allowed, b)
    ensures LibraryWrites(allowed, a + b)
  {
    hide LibraryWrite;
  }

  lemma SourcePart(allowed: Allowed, instrument: Instrument, m: Measurement<int>, base: seq<Attribute>)
    requires instrument in {InputTokens, OutputTokens, VideoFrames} && Plain(instrument, base)
    requires m.present ==> m.source in SOURCES
    ensures LibraryWrites(allowed, IntWrites(instrument, m, base))
  {
    hide Plain, LibraryWrite, With;
    if m.present {
      SourceWrite(allowed, instrument, m.value as real, base, m.source);
    }
  }

  lemma ComponentPart(allowed: Allowed, m: Measurement<int>, base: seq<Attribute>, component: Bytes)
    requires Plain(TokenComponent, base) && component in COMPONENTS && (m.present ==> m.source in SOURCES)
    ensures LibraryWrites(allowed, IntWrites(TokenComponent, m, With(base, TokenType, component)))
  {
    hide Plain, LibraryWrite, With;
    if m.present {
      ComponentWrite(allowed, m.value as real, base, component, m.source);
    }
  }

  lemma TokensAreLibraryWrites(allowed: Allowed, usage: Usage, base: seq<Attribute>)
    requires ValidUsage(usage) && forall i: Instrument :: Plain(i, base)
    ensures LibraryWrites(allowed, TokenWrites(usage, base))
  {
    hide Plain, LibraryWrites, IntWrites, With;
    SourcePart(allowed, InputTokens, usage.inputTokens, base);
    SourcePart(allowed, OutputTokens, usage.outputTokens, base);
    ComponentPart(allowed, usage.cacheWrite, base, CACHE_WRITE);
    ComponentPart(allowed, usage.cacheRead, base, CACHE_READ);
    ComponentPart(allowed, usage.reasoning, base, REASONING);
    var a, b := IntWrites(InputTokens, usage.inputTokens, base), IntWrites(OutputTokens, usage.outputTokens, base);
    var c := IntWrites(TokenComponent, usage.cacheWrite, With(base, TokenType, CACHE_WRITE));
    var d := IntWrites(TokenComponent, usage.cacheRead, With(base, TokenType, CACHE_READ));
    var e := IntWrites(TokenComponent, usage.reasoning, With(base, TokenType, REASONING));
    LibraryConcat(allowed, a, b);
    LibraryConcat(allowed, a + b, c);
    LibraryConcat(allowed, a + b + c, d);
    LibraryConcat(allowed, a + b + c + d, e);
  }

  lemma UsageIsLibraryWrites(labels: Labels, allowed: Allowed, meta: Meta, usage: Usage)
    requires TrackedUsage(allowed, usage)
    ensures LibraryWrites(allowed, UsageWrites(labels, meta, usage))
  {
    hide Plain, LibraryWrite, With, TokenWrites, BaseAttributes, CostAttributes, HasUsage;
    var named := BaseAttributes(MetricMeta(labels, meta));
    var base := if named.Some? then named.value else [];
    forall i: Instrument
      ensures Plain(i, base)
    {
      NothingIsPlain(i);
      if named.Some? {
        BaseIsPlain(i, MetricMeta(labels, meta));
      }
    }
    TokensAreLibraryWrites(allowed, usage, base);
    if usage.cost.present {
      CostWrite(allowed, usage.cost.value.r, base, usage);
    }
    if usage.videoSeconds.present {
      SourceWrite(allowed, VideoSeconds, usage.videoSeconds.value.r, base, usage.videoSeconds.source);
    }
    if usage.videoFrames.present {
      SourceWrite(allowed, VideoFrames, usage.videoFrames.value as real, base, usage.videoFrames.source);
    }
  }

  lemma NothingIsPlain(instrument: Instrument)
    ensures Plain(instrument, [])
  {
  }

  lemma StatusMeaning(instrument: Instrument, base: seq<Attribute>, status: Bytes, errorType: Bytes)
    requires Plain(instrument, base)
    ensures Meaning(instrument, With(base, Status, status) + Given(ErrorType, errorType)) == map[Status := Text(status)]
  {
    hide Meaning;
    PlainOnly(instrument, base);
    WithMeaning(instrument, base, Status, status);
    PlainMeaning(instrument, With(base, Status, status), Given(ErrorType, errorType));
  }

  lemma DurationIsLibraryWrites(labels: Labels, allowed: Allowed, meta: Meta)
    requires meta.status in STATUSES
    ensures LibraryWrites(allowed, DurationWrites(labels, meta))
  {
    hide Meaning, OneKey, Plain, BaseAttributes, With, Given;
    var named := BaseAttributes(MetricMeta(labels, meta));
    if named.Some? {
      BaseIsPlain(DurationInstrument(meta), MetricMeta(labels, meta));
      StatusMeaning(DurationInstrument(meta), named.value, meta.status, meta.errorType);
      InOneKey(Status, meta.status, STATUSES);
    }
  }

  lemma DerivedWrite(allowed: Allowed, w: Write, base: seq<Attribute>, source: Bytes)
    requires w.instrument in {TokensPerSecond, TokenInterval} && Plain(w.instrument, base) && source in SOURCES
    requires w.attrs == With(With(base, Source, source), Calculation,
                             if w.instrument == TokensPerSecond then RATE else INTERVAL)
    ensures LibraryWrite(allowed, w)
  {
    hide Meaning, TwoKeys, Plain;
    var formula := if w.instrument == TokensPerSecond then RATE else INTERVAL;
    PlainOnly(w.instrument, base);
    WithMeaning(w.instrument, base, Source, source);
    WithMeaning(w.instrument, With(base, Source, source), Calculation, formula);
    InTwoKeys(Calculation, formula, {formula}, Source, source, SOURCES);
    assert Meaning(w.instrument, w.attrs) == map[Calculation := Text(formula), Source := Text(source)];
  }

  lemma StreamingIsLibraryWrites(labels: Labels, allowed: Allowed, meta: Meta, tokens: Measurement<int>, t: Timings,
      total: int)
    requires ValidInt(tokens, "token")
    ensures LibraryWrites(allowed, StreamingWrites(labels, meta, tokens, t, total))
  {
    hide Plain, BaseAttributes, With, LibraryWrite, Meaning;
    var named := BaseAttributes(MetricMeta(labels, meta));
    if named.Some? && t.present {
      forall i: Instrument
        ensures Plain(i, named.value)
      {
        BaseIsPlain(i, MetricMeta(labels, meta));
      }
      FirstTokenWrite(allowed, Seconds(t.firstToken), named.value);
      var derived := DerivedWrites(named.value, tokens, total - t.firstToken);
      forall i | 0 <= i < |derived|
        ensures LibraryWrite(allowed, derived[i])
      {
        DerivedWrite(allowed, derived[i], named.value, tokens.source);
      }
    }
  }

  lemma FirstTokenWrite(allowed: Allowed, value: real, base: seq<Attribute>)
    requires Plain(TimeToFirstToken, base)
    ensures LibraryWrite(allowed, Write(TimeToFirstToken, value, base))
  {
    hide Meaning, Plain;
    PlainOnly(TimeToFirstToken, base);
  }

  lemma ToolIsLibraryWrites(allowed: Allowed, tool: Bytes, elapsed: int, status: Bytes, errorType: Bytes)
    requires status in STATUSES
    ensures LibraryWrites(allowed, ToolWrites(tool, elapsed, status, errorType))
  {
    hide Meaning, OneKey;
    var base := [Attribute(ToolName, Text(tool))];
    StatusMeaning(ToolDuration, base, status, errorType);
    assert With(base, Status, status) == [Attribute(ToolName, Text(tool)), Attribute(Status, Text(status))];
    InOneKey(Status, status, STATUSES);
  }

  lemma InvocationMeaning(kind: Bytes, locality: Bytes, status: Bytes)
    ensures Meaning(InvocationDuration, InvocationWrites(kind, locality, 0, status)[0].attrs) ==
      InvocationSeries((kind, locality), status)
  {
    hide Meaning;
    PlainOnly(InvocationDuration, []);
    var a := With([], InvocationKind, kind);
    var b := With(a, Locality, locality);
    WithMeaning(InvocationDuration, [], InvocationKind, kind);
    WithMeaning(InvocationDuration, a, Locality, locality);
    WithMeaning(InvocationDuration, b, Status, status);
    assert With(b, Status, status) == InvocationWrites(kind, locality, 0, status)[0].attrs;
  }

  lemma InvocationIsLibraryWrites(allowed: Allowed, kind: Bytes, locality: Bytes, elapsed: int, status: Bytes)
    requires (kind, locality) in BOUNDARIES && status in STATUSES
    ensures LibraryWrites(allowed, InvocationWrites(kind, locality, elapsed, status))
  {
    hide Meaning;
    InvocationMeaning(kind, locality, status);
    assert InvocationSeries((kind, locality), status) in Grid(InvocationSeries, BOUNDARIES, STATUSES);
  }

  /** Whatever a validated recording is, its writes use no semantic series outside the reserve. */
  lemma RecordingsAreLibraryWrites(labels: Labels, allowed: Allowed, r: Recording)
    requires ValidRecording(allowed, r)
    ensures LibraryWrites(allowed, Writes(labels, allowed, r))
  {
    hide LibraryWrite, UsageWrites, DurationWrites, StreamingWrites, ToolWrites, InvocationWrites, ValidUsage,
         WithPurpose;
    match r {
      case Interaction(meta, usage) =>
        UsageIsLibraryWrites(labels, allowed, meta, WithPurpose(meta, usage));
        DurationIsLibraryWrites(labels, allowed, meta);
        LibraryConcat(allowed, UsageWrites(labels, meta, WithPurpose(meta, usage)), DurationWrites(labels, meta));
      case Streaming(meta, tokens, timings, total) =>
        StreamingIsLibraryWrites(labels, allowed, meta, tokens, timings, total);
      case Tool(tool, elapsed, status, errorType) =>
        ToolIsLibraryWrites(allowed, tool, elapsed, status, errorType);
      case Invocation(kind, locality, elapsed, status) =>
        InvocationIsLibraryWrites(allowed, kind, locality, elapsed, status);
    }
  }

  // ----- amounts by meaning

  lemma {:induction false} TotalConcat(a: seq<Write>, b: seq<Write>, instrument: Instrument, meaning: Series)
    ensures TotalFor(a + b, instrument, meaning) == TotalFor(a, instrument, meaning) + TotalFor(b, instrument, meaning)
  {
    hide Meaning;
    if a == [] {
      assert a + b == b;
    } else {
      TotalConcat(a[1..], b, instrument, meaning);
      assert (a + b)[1..] == a[1..] + b;
    }
  }

  lemma OneTotal(w: Write, instrument: Instrument, meaning: Series)
    ensures TotalFor([w], instrument, meaning) ==
              if w.instrument == instrument && Meaning(instrument, w.attrs) == meaning then w.value else 0.0
    ensures TotalFor([], instrument, meaning) == 0.0
  {
    hide Meaning;
    assert [w][1..] == [];
  }

  lemma {:induction false} OtherTotals(ws: seq<Write>, instrument: Instrument, meaning: Series)
    requires forall i :: 0 <= i < |ws| ==> ws[i].instrument != instrument
    ensures TotalFor(ws, instrument, meaning) == 0.0
  {
    hide Meaning;
    if ws != [] {
      OtherTotals(ws[1..], instrument, meaning);
    }
  }

  function ComponentOf(u: Usage, component: Bytes): Measurement<int>
  {
    if component == CACHE_WRITE then u.cacheWrite else if component == CACHE_READ then u.cacheRead else u.reasoning
  }

  function ComponentSeries(component: Bytes, source: Bytes): Series
  {
    map[TokenType := Text(component), Source := Text(source)]
  }

  lemma OneComponent(m: Measurement<int>, base: seq<Attribute>, component: Bytes, wanted: Bytes, source: Bytes)
    requires Plain(TokenComponent, base)
    ensures var ws := IntWrites(TokenComponent, m, With(base, TokenType, component));
      TotalFor(ws, TokenComponent, ComponentSeries(wanted, source)) ==
              if m.present && component == wanted && m.source == source then m.value as real else 0.0
  {
    hide Meaning, Plain, With, TotalFor;
    var w := Write(TokenComponent, m.value as real, With(With(base, TokenType, component), Source, m.source));
    OneTotal(w, TokenComponent, ComponentSeries(wanted, source));
    ComponentMeaning(base, component, m.source);
    SeriesDiffer(component, m.source, wanted, source);
  }

  lemma SeriesDiffer(component: Bytes, s: Bytes, wanted: Bytes, source: Bytes)
    ensures ComponentSeries(component, s) == ComponentSeries(wanted, source) <==> component == wanted && s == source
  {
    assert ComponentSeries(component, s)[TokenType] == Text(component)
      && ComponentSeries(component, s)[Source] == Text(s);
    assert ComponentSeries(wanted, source)[TokenType] == Text(wanted)
      && ComponentSeries(wanted, source)[Source] == Text(source);
  }

  lemma NamedOperation(labels: Labels, meta: Meta)
    requires labels(OperationName, meta.operation) != ""
    ensures BaseAttributes(MetricMeta(labels, meta)).Some?
  {
  }

  /** Each token component is recorded under its own type and source, with its own amount:
      cached and reasoning tokens are never taken for one another. */
  lemma ComponentsKeepTheirAmounts(labels: Labels, meta: Meta, u: Usage, component: Bytes, source: Bytes)
    requires ValidUsage(u) && component in COMPONENTS && labels(OperationName, meta.operation) != ""
    ensures TotalFor(UsageWrites(labels, meta, u), TokenComponent, ComponentSeries(component, source)) ==
              var m := ComponentOf(u, component);
              if m.present && m.source == source then m.value as real else 0.0
  {
    hide Plain, TotalFor, BaseAttributes, CostAttributes, With, Meaning;
    var key := ComponentSeries(component, source);
    OtherTotals([], TokenComponent, key);
    if HasUsage(u) {
      NamedOperation(labels, meta);
      var base := BaseAttributes(MetricMeta(labels, meta)).value;
      BaseIsPlain(TokenComponent, MetricMeta(labels, meta));
      var a, b := IntWrites(InputTokens, u.inputTokens, base), IntWrites(OutputTokens, u.outputTokens, base);
      var c := IntWrites(TokenComponent, u.cacheWrite, With(base, TokenType, CACHE_WRITE));
      var d := IntWrites(TokenComponent, u.cacheRead, With(base, TokenType, CACHE_READ));
      var e := IntWrites(TokenComponent, u.reasoning, With(base, TokenType, REASONING));
      OneComponent(u.cacheWrite, base, CACHE_WRITE, component, source);
      OneComponent(u.cacheRead, base, CACHE_READ, component, source);
      OneComponent(u.reasoning, base, REASONING, component, source);
      TotalConcat(a, b, TokenComponent, key);
      TotalConcat(a + b, c, TokenComponent, key);
      TotalConcat(a + b + c, d, TokenComponent, key);
      TotalConcat(a + b + c + d, e, TokenComponent, key);
      OtherTotals(a, TokenComponent, key);
      OtherTotals(b, TokenComponent, key);
      var f := FloatWrites(Cost, u.cost, CostAttributes(u, base));
      var g, h := FloatWrites(VideoSeconds, u.videoSeconds, base), IntWrites(VideoFrames, u.videoFrames, base);
      TotalConcat(TokenWrites(u, base), f, TokenComponent, key);
      TotalConcat(TokenWrites(u, base) + f, g, TokenComponent, key);
      TotalConcat(TokenWrites(u, base) + f + g, h, TokenComponent, key);
      OtherTotals(f, TokenComponent, key);
      OtherTotals(g, TokenComponent, key);
      OtherTotals(h, TokenComponent, key);
    }
  }

  function CostSeries(currency: Bytes, source: Bytes): Series
  {
    map[Currency := Text(currency), Source := Text(source)]
  }

  lemma CostSeriesDiffer(c: Bytes, s: Bytes, currency: Bytes, source: Bytes)
    ensures CostSeries(c, s) == CostSeries(currency, source) <==> c == currency && s == source
  {
    assert CostSeries(c, s)[Currency] == Text(c) && CostSeries(c, s)[Source] == Text(s);
    assert CostSeries(currency, source)[Currency] == Text(currency)
      && CostSeries(currency, source)[Source] == Text(source);
  }

  /** A cost is recorded in its own currency and under its own source, and nowhere else. */
  lemma CostKeepsItsCurrency(labels: Labels, meta: Meta, u: Usage, currency: Bytes, source: Bytes)
    requires ValidUsage(u)
    ensures TotalFor(UsageWrites(labels, meta, u), Cost, CostSeries(currency, source)) ==
              if u.cost.present && u.currency == currency && u.cost.source == source then u.cost.value.r else 0.0
  {
    hide Plain, TotalFor, BaseAttributes, CostAttributes, With, Meaning;
    var key := CostSeries(currency, source);
    OtherTotals([], Cost, key);
    if HasUsage(u) {
      var named := BaseAttributes(MetricMeta(labels, meta));
      var base := if named.Some? then named.value else [];
      NothingIsPlain(Cost);
      if named.Some? {
        BaseIsPlain(Cost, MetricMeta(labels, meta));
      }
      var t := if named.Some? then TokenWrites(u, base) else [];
      var f := FloatWrites(Cost, u.cost, CostAttributes(u, base));
      var g, h := FloatWrites(VideoSeconds, u.videoSeconds, base), IntWrites(VideoFrames, u.videoFrames, base);
      TotalConcat(t, f, Cost, key);
      TotalConcat(t + f, g, Cost, key);
      TotalConcat(t + f + g, h, Cost, key);
      OtherTotals(t, Cost, key);
      OtherTotals(g, Cost, key);
      OtherTotals(h, Cost, key);
      if u.cost.present {
        var w := Write(Cost, u.cost.value.r, With(CostAttributes(u, base), Source, u.cost.source));
        OneTotal(w, Cost, key);
        CostMeaning(base, u, u.cost.source);
        CostSeriesDiffer(u.currency, u.cost.source, currency, source);
      }
    }
  }

  /** A duration is recorded under its own outcome, and on the standard instrument only when the
      caller observed a remote interval. */
  lemma DurationKeepsItsOutcome(labels: Labels, meta: Meta, instrument: Instrument, status: Bytes)
    requires labels(OperationName, meta.operation) != "" && instrument in {OperationDuration, ObservedDuration}
    ensures TotalFor(DurationWrites(labels, meta), instrument, map[Status := Text(status)]) ==
              if meta.duration > 0 && meta.status == status
                 && (instrument == OperationDuration <==> meta.interval && meta.locality == REMOTE)
              then Seconds(meta.duration) else 0.0
  {
    hide TotalFor, BaseAttributes, With, Meaning, Plain, Given;
    NamedOperation(labels, meta);
    OtherTotals([], instrument, map[Status := Text(status)]);
    if meta.duration > 0 {
      var base := BaseAttributes(MetricMeta(labels, meta)).value;
      BaseIsPlain(DurationInstrument(meta), MetricMeta(labels, meta));
      StatusMeaning(DurationInstrument(meta), base, meta.status, meta.errorType);
      OneTotal(DurationWrites(labels, meta)[0], instrument, map[Status := Text(status)]);
      assert map[Status := Text(meta.status)][Status] == Text(meta.status);
      assert map[Status := Text(status)][Status] == Text(status);
    }
  }

  /** An invocation is recorded under its own kind, locality and outcome. */
  lemma InvocationKeepsItsBoundary(kind: Bytes, locality: Bytes, elapsed: int, status: Bytes, b: (Bytes, Bytes),
      other: Bytes)
    ensures TotalFor(InvocationWrites(kind, locality, elapsed, status), InvocationDuration,
                     InvocationSeries(b, other)) ==
              if b == (kind, locality) && other == status then Seconds(elapsed) else 0.0
  {
    hide TotalFor, Meaning;
    var w := InvocationWrites(kind, locality, elapsed, status)[0];
    InvocationMeaning(kind, locality, status);
    OneTotal(w, InvocationDuration, InvocationSeries(b, other));
    var mine, wanted := InvocationSeries((kind, locality), status), InvocationSeries(b, other);
    assert mine[InvocationKind] == Text(kind) && mine[Locality] == Text(locality) && mine[Status] == Text(status);
    assert wanted[InvocationKind] == Text(b.0) && wanted[Locality] == Text(b.1) && wanted[Status] == Text(other);
  }
}
