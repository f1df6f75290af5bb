/** Which amounts and which labels the recorders write (genai/helpers.go, genai/metrics.go,
    genai/tool.go), told by the observation alone. */
module RecordedAmounts {
  import opened Bytes
  import opened Usage
  import opened Outcome
  import opened Cardinality
  import opened Recorder
  import opened Accounting

  // ----- what a usage reports

  /** One observation of a present count, none of an absent one. */
  function CountTally(m: Measurement<int>): Tally { if m.present then Tally(1, 0.0, m.value) else NOTHING }

  function AmountTally(m: Measurement<Float>): Tally
    requires m.value.Finite?
  {
    if m.present then Tally(1, m.value.r, 0) else NOTHING
  }

  /** Items of other instruments add nothing. */
  lemma {:induction false} OnlyOne(items: seq<Item>, i: Instrument, k: nat)
    requires k < |items| && forall j :: 0 <= j < |items| && j != k ==> TallyItem(items[j], i) == NOTHING
    ensures TallyItems(items, i) == TallyItem(items[k], i)
  {
    hide TallyItem, Plus;
    var init, last := items[..|items| - 1], |items| - 1;
    assert forall j :: 0 <= j < last ==> init[j] == items[j];
    PlusAssoc(TallyItem(items[k], i), NOTHING, NOTHING);
    if k < last {
      OnlyOne(init, i, k);
    } else {
      NoneOf(init, i);
    }
  }

  lemma {:induction false} NoneOf(items: seq<Item>, i: Instrument)
    requires forall j :: 0 <= j < |items| ==> TallyItem(items[j], i) == NOTHING
    ensures TallyItems(items, i) == NOTHING
  {
    hide TallyItem, Plus;
    PlusAssoc(NOTHING, NOTHING, NOTHING);
    if items != [] {
      NoneOf(items[..|items| - 1], i);
    }
  }

  lemma ThreeItems(items: seq<Item>, i: Instrument)
    requires |items| == 8 && forall j :: 0 <= j < 8 && !(2 <= j < 5) ==> TallyItem(items[j], i) == NOTHING
    ensures TallyItems(items, i) ==
              Plus(Plus(TallyItem(items[2], i), TallyItem(items[3], i)), TallyItem(items[4], i))
  {
    hide TallyItem, TallyItems, Plus;
    var head, tail := items[..5], items[5..];
    var first, a, b, c := items[..2], [items[2]], [items[3]], [items[4]];
    assert items == head + tail && head == first + a + b + c;
    NoneOf(first, i);
    NoneOf(tail, i);
    OneItem(items[2], i);
    OneItem(items[3], i);
    OneItem(items[4], i);
    TallyItemsConcat(first, a, i);
    TallyItemsConcat(first + a, b, i);
    TallyItemsConcat(first + a + b, c, i);
    TallyItemsConcat(head, tail, i);
    PlusAssoc(TallyItem(items[2], i), NOTHING, NOTHING);
    PlusAssoc(TallyItems(head, i), NOTHING, NOTHING);
  }

  /** A usage reports each of its measurements on its own instrument and the three components
      together on theirs. */
  lemma UsageReports(u: Usage)
    requires ValidUsage(u)
    ensures TallyItems(UsageItems(u), InputTokens) == CountTally(u.inputTokens)
    ensures TallyItems(UsageItems(u), OutputTokens) == CountTally(u.outputTokens)
    ensures TallyItems(UsageItems(u), VideoFrames) == CountTally(u.videoFrames)
    ensures TallyItems(UsageItems(u), Cost) == AmountTally(u.cost)
    ensures TallyItems(UsageItems(u), VideoSeconds) == AmountTally(u.videoSeconds)
    ensures TallyItems(UsageItems(u), TokenComponent) ==
              Plus(Plus(CountTally(u.cacheRead), CountTally(u.cacheWrite)), CountTally(u.reasoning))
  {
    hide TallyItems, TallyItem, Plus, ValidUsage, UsageItems;
    UsageIsFinite(u);
    UsageList(u);
    var items := UsageItems(u);
    ReportsOnly(items, InputTokens, 0);
    ReportsOnly(items, OutputTokens, 1);
    ReportsOnly(items, Cost, 5);
    ReportsOnly(items, VideoSeconds, 6);
    ReportsOnly(items, VideoFrames, 7);
    ReportsThree(items);
    CountOfItem(InputTokens, u.inputTokens);
    CountOfItem(OutputTokens, u.outputTokens);
    CountOfItem(VideoFrames, u.videoFrames);
    CountOfItem(TokenComponent, u.cacheRead);
    CountOfItem(TokenComponent, u.cacheWrite);
    CountOfItem(TokenComponent, u.reasoning);
    AmountOfItem(Cost, u.cost);
    AmountOfItem(VideoSeconds, u.videoSeconds);
  }

  /** The instruments of the items of a usage, in order. */
  predicate Listing(items: seq<Item>)
  {
    && |items| == 8 && items[0].instrument == InputTokens && items[1].instrument == OutputTokens
    && items[2].instrument == TokenComponent && items[3].instrument == TokenComponent
    && items[4].instrument == TokenComponent && items[5].instrument == Cost && items[6].instrument == VideoSeconds
    && items[7].instrument == VideoFrames
  }

  lemma UsageList(u: Usage)
    ensures var items := UsageItems(u);
      && Listing(items) && items[0] == IntItem(InputTokens, u.inputTokens)
      && items[1] == IntItem(OutputTokens, u.outputTokens) && items[2] == IntItem(TokenComponent, u.cacheRead)
      && items[3] == IntItem(TokenComponent, u.cacheWrite) && items[4] == IntItem(TokenComponent, u.reasoning)
      && items[5] == FloatItem(Cost, u.cost) && items[6] == FloatItem(VideoSeconds, u.videoSeconds)
      && items[7] == IntItem(VideoFrames, u.videoFrames)
  {
  }

  lemma ReportsOnly(items: seq<Item>, i: Instrument, k: nat)
    requires Listing(items) && k < 8 && items[k].instrument == i && i != TokenComponent
    ensures TallyItems(items, i) == TallyItem(items[k], i)
  {
    hide TallyItems, TallyItem;
    forall j | 0 <= j < 8 && j != k
      ensures TallyItem(items[j], i) == NOTHING
    {
      OtherItem(items[j], i);
    }
    OnlyOne(items, i, k);
  }

  lemma OtherItem(item: Item, i: Instrument)
    requires item.instrument != i
    ensures TallyItem(item, i) == NOTHING
  {
  }

  lemma ReportsThree(items: seq<Item>)
    requires Listing(items)
    ensures TallyItems(items, TokenComponent) ==
              Plus(Plus(TallyItem(items[2], TokenComponent), TallyItem(items[3], TokenComponent)),
                   TallyItem(items[4], TokenComponent))
  {
    hide TallyItems, TallyItem, Plus;
    forall j | 0 <= j < 8 && !(2 <= j < 5)
      ensures TallyItem(items[j], TokenComponent) == NOTHING
    {
      OtherItem(items[j], TokenComponent);
    }
    ThreeItems(items, TokenComponent);
  }

  lemma CountOfItem(i: Instrument, m: Measurement<int>)
    ensures TallyItem(IntItem(i, m), i) == CountTally(m)
  {
  }

  lemma AmountOfItem(i: Instrument, m: Measurement<Float>)
    requires m.value.Finite?
    ensures TallyItem(FloatItem(i, m), i) == AmountTally(m)
  {
  }

  lemma UsageIsFinite(u: Usage)
    requires ValidUsage(u)
    ensures u.cost.value.Finite? && u.videoSeconds.value.Finite?
  {
  }

  // ----- amounts by source

  function SourceSeries(source: Bytes): Series { map[Source := Text(source)] }

  lemma SourceSeriesDiffer(s: Bytes, source: Bytes)
    ensures SourceSeries(s) == SourceSeries(source) <==> s == source
  {
    assert SourceSeries(s)[Source] == Text(s) && SourceSeries(source)[Source] == Text(source);
  }

  lemma SourceIsSeries(instrument: Instrument, base: seq<Attribute>, source: Bytes)
    requires Plain(instrument, base)
    ensures Meaning(instrument, With(base, Source, source)) == SourceSeries(source)
  {
    hide Meaning, Plain;
    SourceMeaning(instrument, base, source);
  }

  lemma OneInt(at: Instrument, m: Measurement<int>, base: seq<Attribute>, instrument: Instrument, source: Bytes)
    requires at in {InputTokens, OutputTokens, VideoFrames} && Plain(at, base)
    ensures TotalFor(IntWrites(at, m, base), instrument, SourceSeries(source)) ==
              if at == instrument && m.present && m.source == source then m.value as real else 0.0
  {
    hide Meaning, Plain, With, TotalFor, SourceSeries;
    SourceIsSeries(at, base, m.source);
    OneTotal(Write(at, m.value as real, With(base, Source, m.source)), instrument, SourceSeries(source));
    SourceSeriesDiffer(m.source, source);
  }

  lemma OneFloat(m: Measurement<Float>, base: seq<Attribute>, instrument: Instrument, source: Bytes)
    requires m.value.Finite? && Plain(VideoSeconds, base)
    ensures TotalFor(FloatWrites(VideoSeconds, m, base), instrument, SourceSeries(source)) ==
              if instrument == VideoSeconds && m.present && m.source == source then m.value.r else 0.0
  {
    hide Meaning, Plain, With, TotalFor, SourceSeries;
    SourceIsSeries(VideoSeconds, base, m.source);
    OneTotal(Write(VideoSeconds, m.value.r, With(base, Source, m.source)), instrument, SourceSeries(source));
    SourceSeriesDiffer(m.source, source);
  }

  /** A count that was reported by this source. */
  function CountBy(m: Measurement<int>, source: Bytes): real
  {
    if m.present && m.source == source then m.value as real else 0.0
  }

  /** The amount a usage reports on an instrument that has one measurement. */
  function AmountOf(u: Usage, instrument: Instrument, source: Bytes): real
    requires ValidUsage(u)
  {
    match instrument
    case InputTokens => CountBy(u.inputTokens, source)
    case OutputTokens => CountBy(u.outputTokens, source)
    case VideoFrames => CountBy(u.videoFrames, source)
    case VideoSeconds =>
      if u.videoSeconds.present && u.videoSeconds.source == source then u.videoSeconds.value.r else 0.0
    case _ => 0.0
  }

  /** Input, output and video amounts are recorded on their own instruments under their own source,
      and nowhere else. */
  lemma SourcesKeepTheirAmounts(labels: Labels, meta: Meta, u: Usage, instrument: Instrument, source: Bytes)
    requires ValidUsage(u) && labels(OperationName, meta.operation) != ""
    requires instrument in {InputTokens, OutputTokens, VideoFrames, VideoSeconds}
    ensures TotalFor(UsageWrites(labels, meta, u), instrument, SourceSeries(source)) == AmountOf(u, instrument, source)
  {
    hide Plain, TotalFor, BaseAttributes, CostAttributes, With, Meaning, SourceSeries, IntWrites, FloatWrites, HasUsage;
    var key := SourceSeries(source);
    NamedOperation(labels, meta);
    NoUsageNoWrites(labels, meta, u);
    var base := BaseAttributes(MetricMeta(labels, meta)).value;
    BaseIsPlain(InputTokens, MetricMeta(labels, meta));
    BaseIsPlain(OutputTokens, MetricMeta(labels, meta));
    BaseIsPlain(VideoFrames, MetricMeta(labels, meta));
    BaseIsPlain(VideoSeconds, MetricMeta(labels, meta));
    var a, b := IntWrites(InputTokens, u.inputTokens, base), IntWrites(OutputTokens, u.outputTokens, base);
    var c := IntWrites(TokenComponent, u.cacheWrite, With(base, TokenType, CACHE_WRITE));
    var d := IntWrites(TokenComponent, u.cacheRead, With(base, TokenType, CACHE_READ));
    var e := IntWrites(TokenComponent, u.reasoning, With(base, TokenType, REASONING));
    var f := FloatWrites(Cost, u.cost, CostAttributes(u, base));
    var g, h := FloatWrites(VideoSeconds, u.videoSeconds, base), IntWrites(VideoFrames, u.videoFrames, base);
    TotalConcat(a, b, instrument, key);
    TotalConcat(a + b, c, instrument, key);
    TotalConcat(a + b + c, d, instrument, key);
    TotalConcat(a + b + c + d, e, instrument, key);
    TotalConcat(TokenWrites(u, base), f, instrument, key);
    TotalConcat(TokenWrites(u, base) + f, g, instrument, key);
    TotalConcat(TokenWrites(u, base) + f + g, h, instrument, key);
    OneInt(InputTokens, u.inputTokens, base, instrument, source);
    OneInt(OutputTokens, u.outputTokens, base, instrument, source);
    OneInt(VideoFrames, u.videoFrames, base, instrument, source);
    OneFloat(u.videoSeconds, base, instrument, source);
    OtherInts(u.cacheWrite, With(base, TokenType, CACHE_WRITE), instrument, key);
    OtherInts(u.cacheRead, With(base, TokenType, CACHE_READ), instrument, key);
    OtherInts(u.reasoning, With(base, TokenType, REASONING), instrument, key);
    OtherCost(u.cost, CostAttributes(u, base), instrument, key);
  }

  lemma OtherInts(m: Measurement<int>, attrs: seq<Attribute>, instrument: Instrument, key: Series)
    requires instrument != TokenComponent
    ensures TotalFor(IntWrites(TokenComponent, m, attrs), instrument, key) == 0.0
  {
    hide TotalFor, With;
    OtherTotals(IntWrites(TokenComponent, m, attrs), instrument, key);
  }

  lemma OtherCost(m: Measurement<Float>, attrs: seq<Attribute>, instrument: Instrument, key: Series)
    requires instrument != Cost && m.value.Finite?
    ensures TotalFor(FloatWrites(Cost, m, attrs), instrument, key) == 0.0
  {
    hide TotalFor, With;
    OtherTotals(FloatWrites(Cost, m, attrs), instrument, key);
  }

  // ----- streaming

  function DerivedSeries(formula: Bytes, source: Bytes): Series
  {
    map[Calculation := Text(formula), Source := Text(source)]
  }

  lemma DerivedMeaning(instrument: Instrument, base: seq<Attribute>, source: Bytes, formula: Bytes)
    requires Plain(instrument, base)
    ensures Meaning(instrument, With(With(base, Source, source), Calculation, formula)) ==
              DerivedSeries(formula, source)
  {
    hide Meaning, Plain;
    PlainOnly(instrument, base);
    WithMeaning(instrument, base, Source, source);
    WithMeaning(instrument, With(base, Source, source), Calculation, formula);
  }

  /** A first token is recorded exactly when the caller observed one, with its own delay. */
  lemma FirstTokenIsKept(labels: Labels, meta: Meta, tokens: Measurement<int>, t: Timings, total: int)
    requires labels(OperationName, meta.operation) != ""
    ensures TotalFor(StreamingWrites(labels, meta, tokens, t, total), TimeToFirstToken, map[]) ==
              if t.present then t.firstToken as real / 1000000000.0 else 0.0
  {
    hide Plain, BaseAttributes, With, Meaning, TotalFor;
    NamedOperation(labels, meta);
    OtherTotals([], TimeToFirstToken, map[]);
    if t.present {
      var base := BaseAttributes(MetricMeta(labels, meta)).value;
      var first := Write(TimeToFirstToken, Seconds(t.firstToken), base);
      var derived := DerivedWrites(base, tokens, total - t.firstToken);
      BaseIsPlain(TimeToFirstToken, MetricMeta(labels, meta));
      PlainOnly(TimeToFirstToken, base);
      OneTotal(first, TimeToFirstToken, map[]);
      TotalConcat([first], derived, TimeToFirstToken, map[]);
      OtherTotals(derived, TimeToFirstToken, map[]);
    }
  }

  /** What is derived from the window after the first token: the rate times the window is the output,
      and the interval times the number of gaps between the tokens is the window. */
  lemma RatesAreDerived(labels: Labels, meta: Meta, tokens: Measurement<int>, t: Timings, total: int)
    requires labels(OperationName, meta.operation) != "" && tokens.value >= 0
    ensures var ws := StreamingWrites(labels, meta, tokens, t, total);
      var window := (total - t.firstToken) as real / 1000000000.0;
      var rate := TotalFor(ws, TokensPerSecond, DerivedSeries(RATE, tokens.source));
      var interval := TotalFor(ws, TokenInterval, DerivedSeries(INTERVAL, tokens.source));
      if t.present && tokens.present && total > t.firstToken then
        && rate * window == tokens.value as real
        && (if tokens.value > 1 then interval * (tokens.value - 1) as real == window else interval == 0.0)
      else rate == 0.0 && interval == 0.0
  {
    hide Plain, BaseAttributes, With, Meaning, TotalFor, DerivedSeries;
    NamedOperation(labels, meta);
    var rateKey, gapKey := DerivedSeries(RATE, tokens.source), DerivedSeries(INTERVAL, tokens.source);
    OtherTotals([], TokensPerSecond, rateKey);
    OtherTotals([], TokenInterval, gapKey);
    if t.present {
      var base := BaseAttributes(MetricMeta(labels, meta)).value;
      var first, window := [Write(TimeToFirstToken, Seconds(t.firstToken), base)], total - t.firstToken;
      var derived := DerivedWrites(base, tokens, window);
      TotalConcat(first, derived, TokensPerSecond, rateKey);
      TotalConcat(first, derived, TokenInterval, gapKey);
      OtherTotals(first, TokensPerSecond, rateKey);
      OtherTotals(first, TokenInterval, gapKey);
      if window > 0 && tokens.present {
        BaseIsPlain(TokensPerSecond, MetricMeta(labels, meta));
        BaseIsPlain(TokenInterval, MetricMeta(labels, meta));
        DerivedTotals(base, tokens, window);
      }
    }
  }

  lemma DerivedTotals(base: seq<Attribute>, tokens: Measurement<int>, window: int)
    requires window > 0 && tokens.present && tokens.value >= 0
    requires Plain(TokensPerSecond, base) && Plain(TokenInterval, base)
    ensures var ws := DerivedWrites(base, tokens, window);
      && TotalFor(ws, TokensPerSecond, DerivedSeries(RATE, tokens.source)) * Seconds(window) == tokens.value as real
      && var interval := TotalFor(ws, TokenInterval, DerivedSeries(INTERVAL, tokens.source));
         if tokens.value > 1 then interval * (tokens.value - 1) as real == Seconds(window) else interval == 0.0
  {
    hide Plain, Meaning, TotalFor, DerivedSeries;
    var attrs := With(base, Source, tokens.source);
    var rateKey, gapKey := DerivedSeries(RATE, tokens.source), DerivedSeries(INTERVAL, tokens.source);
    var rate := Write(TokensPerSecond, tokens.value as real / Seconds(window), With(attrs, Calculation, RATE));
    DerivedMeaning(TokensPerSecond, base, tokens.source, RATE);
    DerivedMeaning(TokenInterval, base, tokens.source, INTERVAL);
    OneTotal(rate, TokensPerSecond, rateKey);
    OneTotal(rate, TokenInterval, gapKey);
    Quotient(tokens.value as real, Seconds(window));
    if tokens.value > 1 {
      var gap := Write(TokenInterval, Seconds(window) / (tokens.value - 1) as real, With(attrs, Calculation, INTERVAL));
      OneTotal(gap, TokensPerSecond, rateKey);
      OneTotal(gap, TokenInterval, gapKey);
      TotalConcat([rate], [gap], TokensPerSecond, rateKey);
      TotalConcat([rate], [gap], TokenInterval, gapKey);
      Quotient(Seconds(window), (tokens.value - 1) as real);
    } else {
      AddEmpty([rate]);
    }
  }

  lemma Quotient(a: real, b: real)
    requires b > 0.0
    ensures a / b * b == a
  {
  }

  // ----- labels

  /** The labels shared by the metrics of an operation: each metadata text in its protected form. */
  lemma OperationIsLabelled(labels: Labels, meta: Meta)
    requires labels(OperationName, meta.operation) != ""
    ensures BaseAttributes(MetricMeta(labels, meta)).Some?
    ensures var shown := SeriesOf(BaseAttributes(MetricMeta(labels, meta)).value);
      var provider, model := labels(Provider, meta.provider), labels(RequestModel, meta.requestModel);
      var answer, server := labels(ResponseModel, meta.responseModel), labels(ServerAddress, meta.serverAddress);
      && shown.Keys <= {Provider, OperationName, RequestModel, ResponseModel, ServerAddress, ServerPort}
      && Provider in shown && shown[Provider] == Text(if provider == "" then "unknown" else provider)
      && OperationName in shown && shown[OperationName] == Text(labels(OperationName, meta.operation))
      && (RequestModel in shown <==> meta.requestModel != "" && model != "")
      && (RequestModel in shown ==> shown[RequestModel] == Text(model))
      && (ResponseModel in shown <==> meta.responseModel != "" && answer != "")
      && (ResponseModel in shown ==> shown[ResponseModel] == Text(answer))
      && (ServerAddress in shown <==> meta.serverAddress != "" && server != "")
      && (ServerAddress in shown ==> shown[ServerAddress] == Text(server))
      && (ServerPort in shown <==> meta.serverPort > 0)
      && (ServerPort in shown ==> shown[ServerPort] == Int(meta.serverPort))
  {
    hide SeriesOf;
    var m := MetricMeta(labels, meta);
    var a := [Attribute(Provider, Text(if m.provider == "" then UNKNOWN else m.provider)),
              Attribute(OperationName, Text(m.operation))];
    var b := a + Given(RequestModel, m.requestModel);
    var c := b + Given(ResponseModel, m.responseModel);
    var d := c + Given(ServerAddress, m.serverAddress);
    NoSeries();
    SeriesSnoc([], a[0]);
    SeriesSnoc([a[0]], a[1]);
    assert [] + [a[0]] == [a[0]] && [a[0]] + [a[1]] == a;
    SeriesGiven(a, RequestModel, m.requestModel);
    SeriesGiven(b, ResponseModel, m.responseModel);
    SeriesGiven(c, ServerAddress, m.serverAddress);
    SeriesSnoc(d, Attribute(ServerPort, Int(m.serverPort)));
    AddEmpty(d);
  }

  lemma NoSeries()
    ensures SeriesOf([]) == map[]
  {
  }

  lemma SeriesGiven(attrs: seq<Attribute>, k: Key, s: Bytes)
    ensures SeriesOf(attrs + Given(k, s)) == if s == "" then SeriesOf(attrs) else SeriesOf(attrs)[k := Text(s)]
  {
    hide SeriesOf;
    AddEmpty(attrs);
    SeriesSnoc(attrs, Attribute(k, Text(s)));
  }

  /** The labels of an operation that names itself. */
  function SharedLabels(labels: Labels, meta: Meta): Series
    requires labels(OperationName, meta.operation) != ""
  {
    NamedOperation(labels, meta);
    SeriesOf(BaseAttributes(MetricMeta(labels, meta)).value)
  }

  lemma SeriesWith(attrs: seq<Attribute>, k: Key, s: Bytes)
    ensures SeriesOf(With(attrs, k, s)) == SeriesOf(attrs)[k := Text(s)]
  {
    hide SeriesOf;
    SeriesSnoc(attrs, Attribute(k, Text(s)));
  }

  /** A duration is recorded once, under the shared labels, its outcome and the class of its error if
      it has one. */
  lemma DurationIsLabelled(labels: Labels, meta: Meta)
    requires labels(OperationName, meta.operation) != "" && meta.duration > 0
    ensures |DurationWrites(labels, meta)| == 1
    ensures var outcome := SharedLabels(labels, meta)[Status := Text(meta.status)];
      SeriesOf(DurationWrites(labels, meta)[0].attrs) ==
        if meta.errorType == "" then outcome else outcome[ErrorType := Text(meta.errorType)]
  {
    hide SeriesOf, BaseAttributes, Given, With;
    NamedOperation(labels, meta);
    var base := BaseAttributes(MetricMeta(labels, meta)).value;
    SeriesWith(base, Status, meta.status);
    SeriesGiven(With(base, Status, meta.status), ErrorType, meta.errorType);
  }

  /** What a usage write shows besides the shared labels: its source, the type of a component, the
      purpose and the currency of a cost. */
  predicate UsageLabelled(shared: Series, u: Usage, w: Write)
  {
    match w.instrument
    case TokenComponent =>
      || SeriesOf(w.attrs) == shared[TokenType := Text(CACHE_WRITE)][Source := Text(u.cacheWrite.source)]
      || SeriesOf(w.attrs) == shared[TokenType := Text(CACHE_READ)][Source := Text(u.cacheRead.source)]
      || SeriesOf(w.attrs) == shared[TokenType := Text(REASONING)][Source := Text(u.reasoning.source)]
    case Cost =>
      SeriesOf(w.attrs) == shared[Purpose := Text(if u.purpose == "" then "generation" else u.purpose)]
                                 [Currency := Text(u.currency)][Source := Text(u.cost.source)]
    case InputTokens => SeriesOf(w.attrs) == shared[Source := Text(u.inputTokens.source)]
    case OutputTokens => SeriesOf(w.attrs) == shared[Source := Text(u.outputTokens.source)]
    case VideoSeconds => SeriesOf(w.attrs) == shared[Source := Text(u.videoSeconds.source)]
    case VideoFrames => SeriesOf(w.attrs) == shared[Source := Text(u.videoFrames.source)]
    case _ => false
  }

  predicate AllUsageLabelled(shared: Series, u: Usage, ws: seq<Write>)
  {
    forall i :: 0 <= i < |ws| ==> UsageLabelled(shared, u, ws[i])
  }

  lemma LabelledConcat(shared: Series, u: Usage, a: seq<Write>, b: seq<Write>)
    requires AllUsageLabelled(shared, u, a) && AllUsageLabelled(shared, u, b)
    ensures AllUsageLabelled(shared, u, a + b)
  {
    hide UsageLabelled;
  }

  lemma CountLabelled(shared: Series, u: Usage, at: Instrument, m: Measurement<int>, base: seq<Attribute>)
    requires SeriesOf(base) == shared
    requires || (at == InputTokens && m == u.inputTokens) || (at == OutputTokens && m == u.outputTokens)
             || (at == VideoFrames && m == u.videoFrames)
    ensures AllUsageLabelled(shared, u, IntWrites(at, m, base))
  {
    hide SeriesOf, With;
    SeriesWith(base, Source, m.source);
  }

  lemma ComponentLabelled(shared: Series, u: Usage, m: Measurement<int>, component: Bytes, base: seq<Attribute>)
    requires SeriesOf(base) == shared
    requires || (component == CACHE_WRITE && m == u.cacheWrite) || (component == CACHE_READ && m == u.cacheRead)
             || (component == REASONING && m == u.reasoning)
    ensures AllUsageLabelled(shared, u, IntWrites(TokenComponent, m, With(base, TokenType, component)))
  {
    hide SeriesOf, With, CACHE_WRITE, CACHE_READ, REASONING;
    SeriesWith(base, TokenType, component);
    SeriesWith(With(base, TokenType, component), Source, m.source);
  }

  lemma CostLabelled(shared: Series, u: Usage, base: seq<Attribute>)
    requires SeriesOf(base) == shared && u.cost.value.Finite?
    ensures AllUsageLabelled(shared, u, FloatWrites(Cost, u.cost, CostAttributes(u, base)))
  {
    hide SeriesOf, With;
    var purpose := if u.purpose == "" then "generation" else u.purpose;
    SeriesWith(base, Purpose, purpose);
    SeriesWith(With(base, Purpose, purpose), Currency, u.currency);
    SeriesWith(CostAttributes(u, base), Source, u.cost.source);
  }

  lemma VideoLabelled(shared: Series, u: Usage, base: seq<Attribute>)
    requires SeriesOf(base) == shared && u.videoSeconds.value.Finite?
    ensures AllUsageLabelled(shared, u, FloatWrites(VideoSeconds, u.videoSeconds, base))
  {
    hide SeriesOf, With;
    SeriesWith(base, Source, u.videoSeconds.source);
  }

  /** Every usage write of an operation carries the shared labels and what belongs to its own
      measurement, and nothing else. */
  lemma UsageIsLabelled(labels: Labels, meta: Meta, u: Usage)
    requires ValidUsage(u) && labels(OperationName, meta.operation) != ""
    ensures AllUsageLabelled(SharedLabels(labels, meta), u, UsageWrites(labels, meta, u))
  {
    hide SeriesOf, BaseAttributes, With, IntWrites, FloatWrites, AllUsageLabelled, CostAttributes, HasUsage, ValidUsage;
    UsageIsFinite(u);
    NamedOperation(labels, meta);
    NoUsageNoWrites(labels, meta, u);
    var base := BaseAttributes(MetricMeta(labels, meta)).value;
    var shared := SharedLabels(labels, meta);
    var a, b := IntWrites(InputTokens, u.inputTokens, base), IntWrites(OutputTokens, u.outputTokens, base);
    var c := IntWrites(TokenComponent, u.cacheWrite, With(base, TokenType, CACHE_WRITE));
    var d := IntWrites(TokenComponent, u.cacheRead, With(base, TokenType, CACHE_READ));
    var e := IntWrites(TokenComponent, u.reasoning, With(base, TokenType, REASONING));
    var f := FloatWrites(Cost, u.cost, CostAttributes(u, base));
    var g, h := FloatWrites(VideoSeconds, u.videoSeconds, base), IntWrites(VideoFrames, u.videoFrames, base);
    CountLabelled(shared, u, InputTokens, u.inputTokens, base);
    CountLabelled(shared, u, OutputTokens, u.outputTokens, base);
    CountLabelled(shared, u, VideoFrames, u.videoFrames, base);
    ComponentLabelled(shared, u, u.cacheWrite, CACHE_WRITE, base);
    ComponentLabelled(shared, u, u.cacheRead, CACHE_READ, base);
    ComponentLabelled(shared, u, u.reasoning, REASONING, base);
    CostLabelled(shared, u, base);
    VideoLabelled(shared, u, base);
    LabelledConcat(shared, u, a, b);
    LabelledConcat(shared, u, a + b, c);
    LabelledConcat(shared, u, a + b + c, d);
    LabelledConcat(shared, u, a + b + c + d, e);
    LabelledConcat(shared, u, TokenWrites(u, base), f);
    LabelledConcat(shared, u, TokenWrites(u, base) + f, g);
    LabelledConcat(shared, u, TokenWrites(u, base) + f + g, h);
  }

  /** Streaming writes carry the shared labels, the derived ones also the source of the tokens and how
      they were calculated. */
  lemma StreamingIsLabelled(labels: Labels, meta: Meta, tokens: Measurement<int>, t: Timings, total: int, i: nat)
    requires labels(OperationName, meta.operation) != "" && i < |StreamingWrites(labels, meta, tokens, t, total)|
    ensures var w := StreamingWrites(labels, meta, tokens, t, total)[i];
      var shared := SharedLabels(labels, meta);
      var sourced := shared[Source := Text(tokens.source)];
      && (i == 0 <==> w.instrument == TimeToFirstToken)
      && SeriesOf(w.attrs) ==
           if w.instrument == TimeToFirstToken then shared
           else if w.instrument == TokensPerSecond
           then sourced[Calculation := Text("output_tokens_over_generation_window")]
           else sourced[Calculation := Text("generation_window_over_output_token_intervals")]
  {
    hide SeriesOf, BaseAttributes, With;
    NamedOperation(labels, meta);
    var base := BaseAttributes(MetricMeta(labels, meta)).value;
    var attrs := With(base, Source, tokens.source);
    SeriesWith(base, Source, tokens.source);
    SeriesWith(attrs, Calculation, RATE);
    SeriesWith(attrs, Calculation, INTERVAL);
  }

  /** A tool call is recorded once, under its name, its outcome and its class, with its own duration. */
  lemma ToolIsLabelled(tool: Bytes, elapsed: int, status: Bytes, errorType: Bytes)
    requires status in STATUSES
    ensures var ws := ToolWrites(tool, elapsed, status, errorType);
      && |ws| == (if elapsed > 0 then 1 else 0)
      && (elapsed > 0 ==>
            && ws[0].instrument == ToolDuration && ws[0].value == elapsed as real / 1000000000.0
            && var named := map[ToolName := Text(tool), Status := Text(status)];
               SeriesOf(ws[0].attrs) == if errorType == "" then named else named[ErrorType := Text(errorType)])
  {
    hide SeriesOf;
    if elapsed > 0 {
      var a := [Attribute(ToolName, Text(tool))];
      var b := [Attribute(ToolName, Text(tool)), Attribute(Status, Text(status))];
      NoSeries();
      SeriesSnoc([], a[0]);
      SeriesSnoc(a, b[1]);
      assert [] + [a[0]] == a && a + [b[1]] == b;
      SeriesGiven(b, ErrorType, errorType);
    }
  }
}
