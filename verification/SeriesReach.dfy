/** Which series the recorders can produce at all: the allocator's reserve (genai/cardinality.go)
    holds no room for a series that no recording asks for. */
module SeriesReach {
  import opened Bytes
  import opened Usage
  import opened Outcome
  import opened Cardinality
  import opened Recorder

  /** The recording writes a series with these semantic keys to the instrument. */
  ghost predicate WritesSeries(labels: Labels, allowed: Allowed, r: Recording, instrument: Instrument, m: Series)
    requires ValidRecording(allowed, r)
  {
    var ws := Writes(labels, allowed, r);
    exists i :: 0 <= i < |ws| && ws[i].instrument == instrument && Meaning(instrument, ws[i].attrs) == m
  }

  /** Some validated recording does. */
  ghost predicate Produced(labels: Labels, allowed: Allowed, instrument: Instrument, m: Series)
  {
    exists r: Recording :: ValidRecording(allowed, r) && WritesSeries(labels, allowed, r, instrument, m)
  }

  predicate ValidCurrency(s: Bytes) { 0 < |s| <= 16 && AsciiCurrency(s) }

  /** The declared values, without currencies that no valid usage can name. */
  function Billable(allowed: Allowed): Allowed
  {
    if Currency in allowed then allowed[Currency := set c | c in allowed[Currency] && ValidCurrency(c)] else allowed
  }

  lemma BillableValues(allowed: Allowed)
    ensures forall c :: c in Values(Billable(allowed), Currency) <==> c in Values(allowed, Currency) && ValidCurrency(c)
  {
  }

  // ----- a recording for each series

  function MetaOf(name: Bytes, status: Bytes, duration: int, remote: bool): Meta
  {
    Meta(status, "", name, "", "", "", "", 0, duration, "", remote, if remote then REMOTE else LOCAL)
  }

  function Tokens(source: Bytes): Measurement<int> { Measurement(2, true, source, "token") }

  lemma NoStatusWrites(labels: Labels, name: Bytes)
    ensures DurationWrites(labels, MetaOf(name, OK, 0, false)) == []
  {
  }

  /** The recording of a usage alone writes what the usage asks for. */
  lemma UsageProduces(labels: Labels, allowed: Allowed, name: Bytes, u: Usage, w: Write)
    requires TrackedUsage(allowed, u) && u.purpose == "" && UsageWrites(labels, MetaOf(name, OK, 0, false), u) == [w]
    ensures Produced(labels, allowed, w.instrument, Meaning(w.instrument, w.attrs))
  {
    hide UsageWrites, DurationWrites, ValidUsage, Meaning, Values;
    var r := Interaction(MetaOf(name, OK, 0, false), u);
    NoStatusWrites(labels, name);
    AddEmpty([w]);
    assert ValidRecording(allowed, r);
    assert Writes(labels, allowed, r)[0] == w;
    assert WritesSeries(labels, allowed, r, w.instrument, Meaning(w.instrument, w.attrs));
  }

  /** The attributes of a named operation without optional metadata. */
  function BaseOf(labels: Labels, name: Bytes): seq<Attribute>
    requires labels(OperationName, name) != ""
  {
    NamedOperation(labels, MetaOf(name, OK, 0, false));
    BaseAttributes(MetricMeta(labels, MetaOf(name, OK, 0, false))).value
  }

  lemma BaseOfPlain(labels: Labels, name: Bytes, instrument: Instrument)
    requires labels(OperationName, name) != ""
    ensures Plain(instrument, BaseOf(labels, name))
  {
    BaseIsPlain(instrument, MetricMeta(labels, MetaOf(name, OK, 0, false)));
  }

  function SourceUsage(instrument: Instrument, source: Bytes): Usage
  {
    match instrument
    case InputTokens => NO_USAGE.(inputTokens := Tokens(source))
    case OutputTokens => NO_USAGE.(outputTokens := Tokens(source))
    case VideoSeconds => NO_USAGE.(videoSeconds := Measurement(Finite(1.0), true, source, "s"))
    case _ => NO_USAGE.(videoFrames := Measurement(1, true, source, "frame"))
  }

  lemma SourceProduced(labels: Labels, allowed: Allowed, name: Bytes, instrument: Instrument, source: Bytes)
    requires labels(OperationName, name) != "" && source in SOURCES
    requires instrument in {InputTokens, OutputTokens, VideoSeconds, VideoFrames}
    ensures Produced(labels, allowed, instrument, map[Source := Text(source)])
  {
    hide Meaning, Produced, BaseAttributes, Plain, With, SOURCES;
    var u, base := SourceUsage(instrument, source), BaseOf(labels, name);
    BaseOfPlain(labels, name, instrument);
    SourceMeaning(instrument, base, source);
    var value := if instrument == InputTokens || instrument == OutputTokens then 2.0 else 1.0;
    var w := Write(instrument, value, With(base, Source, source));
    NamedOperation(labels, MetaOf(name, OK, 0, false));
    assert UsageWrites(labels, MetaOf(name, OK, 0, false), u) == [w];
    UsageProduces(labels, allowed, name, u, w);
  }

  function ComponentUsage(component: Bytes, source: Bytes): Usage
  {
    if component == CACHE_WRITE then NO_USAGE.(cacheWrite := Tokens(source))
    else if component == CACHE_READ then NO_USAGE.(cacheRead := Tokens(source))
    else NO_USAGE.(reasoning := Tokens(source))
  }

  lemma ComponentProduced(labels: Labels, allowed: Allowed, name: Bytes, component: Bytes, source: Bytes)
    requires labels(OperationName, name) != "" && component in COMPONENTS && source in SOURCES
    ensures Produced(labels, allowed, TokenComponent, map[TokenType := Text(component), Source := Text(source)])
  {
    hide Meaning, Produced, BaseAttributes, Plain, With, SOURCES;
    var u, base := ComponentUsage(component, source), BaseOf(labels, name);
    BaseOfPlain(labels, name, TokenComponent);
    ComponentMeaning(base, component, source);
    var w := Write(TokenComponent, 2.0, With(With(base, TokenType, component), Source, source));
    NamedOperation(labels, MetaOf(name, OK, 0, false));
    assert UsageWrites(labels, MetaOf(name, OK, 0, false), u) == [w];
    UsageProduces(labels, allowed, name, u, w);
  }

  lemma CostProduced(labels: Labels, allowed: Allowed, name: Bytes, currency: Bytes, source: Bytes)
    requires labels(OperationName, name) != "" && source in SOURCES
    requires currency in Values(allowed, Currency) && ValidCurrency(currency)
    ensures Produced(labels, allowed, Cost, map[Currency := Text(currency), Source := Text(source)])
  {
    hide Meaning, Produced, BaseAttributes, Plain, CostAttributes, With, SOURCES, Values, AsciiCurrency;
    var u := NO_USAGE.(cost := Measurement(Finite(1.0), true, source, "currency"), currency := currency);
    var base := BaseOf(labels, name);
    BaseOfPlain(labels, name, Cost);
    CostMeaning(base, u, source);
    var w := Write(Cost, 1.0, With(CostAttributes(u, base), Source, source));
    NamedOperation(labels, MetaOf(name, OK, 0, false));
    assert UsageWrites(labels, MetaOf(name, OK, 0, false), u) == [w];
    UsageProduces(labels, allowed, name, u, w);
  }

  lemma DurationProduced(labels: Labels, allowed: Allowed, name: Bytes, instrument: Instrument, status: Bytes)
    requires labels(OperationName, name) != "" && status in STATUSES
      && instrument in {OperationDuration, ObservedDuration}
    ensures Produced(labels, allowed, instrument, map[Status := Text(status)])
  {
    hide Meaning, BaseAttributes, Plain, With, Given, STATUSES, Values;
    var meta := MetaOf(name, status, 1, instrument == OperationDuration);
    var r := Interaction(meta, NO_USAGE);
    NamedOperation(labels, meta);
    var base := BaseAttributes(MetricMeta(labels, meta)).value;
    BaseIsPlain(instrument, MetricMeta(labels, meta));
    StatusMeaning(instrument, base, status, "");
    assert ValidRecording(allowed, r);
    assert Writes(labels, allowed, r)[0] ==
      Write(instrument, Seconds(1), With(base, Status, status) + Given(ErrorType, ""));
    assert WritesSeries(labels, allowed, r, instrument, map[Status := Text(status)]);
  }

  lemma ToolProduced(labels: Labels, allowed: Allowed, status: Bytes)
    requires status in STATUSES
    ensures Produced(labels, allowed, ToolDuration, map[Status := Text(status)])
  {
    hide Meaning, Given;
    var r := Tool(UNKNOWN, 1, status, "");
    var base := [Attribute(ToolName, Text(UNKNOWN))];
    StatusMeaning(ToolDuration, base, status, "");
    assert With(base, Status, status) == [Attribute(ToolName, Text(UNKNOWN)), Attribute(Status, Text(status))];
    assert ValidRecording(allowed, r);
    assert Writes(labels, allowed, r)[0].attrs == With(base, Status, status) + Given(ErrorType, "");
    assert WritesSeries(labels, allowed, r, ToolDuration, map[Status := Text(status)]);
  }

  lemma InvocationProduced(labels: Labels, allowed: Allowed, b: (Bytes, Bytes), status: Bytes)
    requires b in BOUNDARIES && status in STATUSES
    ensures Produced(labels, allowed, InvocationDuration, InvocationSeries(b, status))
  {
    hide Meaning, BOUNDARIES, STATUSES;
    var r := Invocation(b.0, b.1, 0, status);
    InvocationMeaning(b.0, b.1, status);
    assert ValidRecording(allowed, r) && b == (b.0, b.1);
    assert Writes(labels, allowed, r)[0] == InvocationWrites(b.0, b.1, 0, status)[0];
    assert WritesSeries(labels, allowed, r, InvocationDuration, InvocationSeries(b, status));
  }

  /** A stream of two tokens in one nanosecond after its first. */
  function Stream(name: Bytes, source: Bytes): Recording
  {
    Streaming(MetaOf(name, OK, 0, false), Tokens(source), Timings(0, true), 1)
  }

  lemma StreamWrites(labels: Labels, allowed: Allowed, name: Bytes, source: Bytes)
    requires labels(OperationName, name) != "" && source in SOURCES
    ensures ValidRecording(allowed, Stream(name, source))
    ensures var base, ws := BaseOf(labels, name), Writes(labels, allowed, Stream(name, source));
      && |ws| == 3
      && ws[0].instrument == TimeToFirstToken && ws[0].attrs == base
      && ws[1].instrument == TokensPerSecond && ws[1].attrs == With(With(base, Source, source), Calculation, RATE)
      && ws[2].instrument == TokenInterval && ws[2].attrs == With(With(base, Source, source), Calculation, INTERVAL)
  {
    hide BaseAttributes, With, SOURCES;
    NamedOperation(labels, MetaOf(name, OK, 0, false));
  }

  lemma FirstTokenProduced(labels: Labels, allowed: Allowed, name: Bytes)
    requires labels(OperationName, name) != ""
    ensures Produced(labels, allowed, TimeToFirstToken, map[])
  {
    hide Meaning, Writes, Stream, BaseOf, Plain;
    StreamWrites(labels, allowed, name, MEASURED);
    BaseOfPlain(labels, name, TimeToFirstToken);
    PlainOnly(TimeToFirstToken, BaseOf(labels, name));
    assert WritesSeries(labels, allowed, Stream(name, MEASURED), TimeToFirstToken, map[]);
  }

  lemma DerivedProduced(labels: Labels, allowed: Allowed, name: Bytes, instrument: Instrument, source: Bytes)
    requires labels(OperationName, name) != "" && source in SOURCES && instrument in {TokensPerSecond, TokenInterval}
    ensures var formula := if instrument == TokensPerSecond then RATE else INTERVAL;
      Produced(labels, allowed, instrument, map[Calculation := Text(formula), Source := Text(source)])
  {
    hide Meaning, Writes, Stream, BaseOf, Plain, With, SOURCES;
    var formula := if instrument == TokensPerSecond then RATE else INTERVAL;
    var base := BaseOf(labels, name);
    StreamWrites(labels, allowed, name, source);
    BaseOfPlain(labels, name, instrument);
    PlainOnly(instrument, base);
    WithMeaning(instrument, base, Source, source);
    WithMeaning(instrument, With(base, Source, source), Calculation, formula);
    var m: Series := map[Calculation := Text(formula), Source := Text(source)];
    assert Meaning(instrument, With(With(base, Source, source), Calculation, formula)) == m;
    assert WritesSeries(labels, allowed, Stream(name, source), instrument, m);
  }

  // ----- the keys of a semantic series

  lemma OneKeyOf(k: Key, values: set<Bytes>, m: Series) returns (v: Bytes)
    requires m in OneKey(k, values)
    ensures v in values && m == map[k := Text(v)]
  {
    v :| v in values && ((v: Bytes) => map[k := Text(v)])(v) == m;
  }

  lemma TwoKeysOf(k: Key, values: set<Bytes>, l: Key, others: set<Bytes>, m: Series) returns (v: Bytes, w: Bytes)
    requires m in TwoKeys(k, values, l, others)
    ensures v in values && w in others && m == map[k := Text(v), l := Text(w)]
  {
    v, w :| v in values && w in others && ((v: Bytes, w: Bytes) => map[k := Text(v), l := Text(w)])(v, w) == m;
  }

  // ----- the theorem

  /** Every semantic series in a currency that a usage can name is asked for by some recording. */
  lemma SemanticIsProduced(labels: Labels, allowed: Allowed, name: Bytes, instrument: Instrument, m: Series)
    requires labels(OperationName, name) != "" && m in SemanticSeries(Billable(allowed), instrument)
    ensures Produced(labels, allowed, instrument, m)
  {
    hide Produced, OneKey, TwoKeys, Billable, Values, SOURCES, STATUSES, COMPONENTS, BOUNDARIES, ValidCurrency;
    match instrument {
      case TokenComponent =>
        var v, w := TwoKeysOf(TokenType, COMPONENTS, Source, SOURCES, m);
        ComponentProduced(labels, allowed, name, v, w);
      case Cost =>
        var v, w := TwoKeysOf(Currency, Values(Billable(allowed), Currency), Source, SOURCES, m);
        BillableValues(allowed);
        CostProduced(labels, allowed, name, v, w);
      case TokensPerSecond =>
        var v, w := TwoKeysOf(Calculation, {RATE}, Source, SOURCES, m);
        DerivedProduced(labels, allowed, name, instrument, w);
      case TokenInterval =>
        var v, w := TwoKeysOf(Calculation, {INTERVAL}, Source, SOURCES, m);
        DerivedProduced(labels, allowed, name, instrument, w);
      case ToolDuration =>
        var v := OneKeyOf(Status, STATUSES, m);
        ToolProduced(labels, allowed, v);
      case OperationDuration =>
        var v := OneKeyOf(Status, STATUSES, m);
        DurationProduced(labels, allowed, name, instrument, v);
      case ObservedDuration =>
        var v := OneKeyOf(Status, STATUSES, m);
        DurationProduced(labels, allowed, name, instrument, v);
      case InvocationDuration =>
        var b, status :| b in BOUNDARIES && status in STATUSES && InvocationSeries(b, status) == m;
        InvocationProduced(labels, allowed, b, status);
      case TimeToFirstToken => FirstTokenProduced(labels, allowed, name);
      case _ =>
        var v := OneKeyOf(Source, SOURCES, m);
        SourceProduced(labels, allowed, name, instrument, v);
    }
  }

  /** A validated recording is validated without the currencies that it cannot name. */
  lemma BillableRecording(allowed: Allowed, r: Recording)
    requires ValidRecording(allowed, r)
    ensures ValidRecording(Billable(allowed), r)
  {
    hide Billable, Values;
    BillableValues(allowed);
  }

  /** The series that recordings produce are exactly the semantic ones, in the declared currencies
      that a usage can name. */
  lemma ProducedExactly(labels: Labels, allowed: Allowed, name: Bytes, instrument: Instrument, m: Series)
    requires labels(OperationName, name) != ""
    ensures Produced(labels, allowed, instrument, m) <==> m in SemanticSeries(Billable(allowed), instrument)
  {
    hide SemanticSeries, Billable, ValidRecording, Writes;
    if m in SemanticSeries(Billable(allowed), instrument) {
      SemanticIsProduced(labels, allowed, name, instrument, m);
    }
    if Produced(labels, allowed, instrument, m) {
      var r :| ValidRecording(allowed, r) && WritesSeries(labels, allowed, r, instrument, m);
      BillableRecording(allowed, r);
      RecordingsAreLibraryWrites(labels, Billable(allowed), r);
      SameWrites(labels, allowed, Billable(allowed), r);
    }
  }

  lemma SameWrites(labels: Labels, allowed: Allowed, other: Allowed, r: Recording)
    requires ValidRecording(allowed, r) && ValidRecording(other, r)
    ensures Writes(labels, allowed, r) == Writes(labels, other, r)
  {
    hide UsageWrites, DurationWrites, StreamingWrites, ToolWrites, InvocationWrites;
  }
}
