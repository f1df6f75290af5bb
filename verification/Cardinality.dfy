/** The allocator of metric series (genai/cardinality.go) under a validated profile
    (genai/profile.go). */
module Cardinality {
  import opened Bytes
  import opened Decimals
  import opened Usage
  import opened Outcome

  /** Attribute keys of the library's metrics. */
  datatype Key =
    | Provider | OperationName | RequestModel | ResponseModel | ServerAddress | ServerPort | ToolName
    | Status | Purpose | Currency | ErrorType
    | TokenType | Source | InvocationKind | Locality | Calculation | Overflow

  datatype Value = Text(s: Bytes) | Int(n: int) | Bool(b: bool)

  datatype Attribute = Attribute(key: Key, value: Value)

  type Series = map<Key, Value>

  datatype Instrument =
    | InputTokens | OutputTokens | TokenComponent | Cost | VideoSeconds | VideoFrames
    | OperationDuration | ObservedDuration | InvocationDuration | ToolDuration
    | TimeToFirstToken | TokensPerSecond | TokenInterval

  /** The attribute set of a list: the last value of a key counts. */
  function SeriesOf(attrs: seq<Attribute>): Series
  {
    if attrs == [] then map[]
    else SeriesOf(attrs[..|attrs| - 1])[attrs[|attrs| - 1].key := attrs[|attrs| - 1].value]
  }

  // ----- profile

  datatype Dimension = Dimension(key: Key, values: seq<Bytes>)

  /** Caller-owned settings: the identity of the payload policy, the budget of every instrument
      and the allowlisted dimensions. */
  datatype Profile = Profile(policyId: Bytes, budget: int, dimensions: seq<Dimension>)

  const MIN_BUDGET: int := 16
  const MAX_BUDGET: int := 4096
  const MAX_ENTRIES: int := 128
  const MAX_LABEL: int := 80
  const PROVENANCE: int := 3

  predicate MetricDimension(k: Key)
  {
    k in {Provider, OperationName, RequestModel, ResponseModel, ServerAddress, ServerPort, ToolName,
          Status, Purpose, Currency, ErrorType}
  }

  predicate ValidDimension(d: Dimension)
  {
    MetricDimension(d.key) && |d.values| <= MAX_ENTRIES &&
    forall i :: 0 <= i < |d.values| ==> d.values[i] != "" && |d.values[i]| <= MAX_LABEL
  }

  ghost predicate ValidDimensions(ds: seq<Dimension>)
  {
    (forall i :: 0 <= i < |ds| ==> ValidDimension(ds[i])) &&
    forall i, j :: 0 <= i < j < |ds| ==> ds[i].key != ds[j].key
  }

  ghost predicate ValidProfile(p: Profile)
  {
    && p.policyId != "" && |p.policyId| <= MAX_LABEL
    && MIN_BUDGET <= p.budget <= MAX_BUDGET && |p.dimensions| <= MAX_ENTRIES
    && ValidDimensions(p.dimensions)
    && forall i :: 0 <= i < |p.dimensions| && p.dimensions[i].key == Currency ==>
         |p.dimensions[i].values| * PROVENANCE < p.budget
  }

  lemma DimensionsMean(ds: seq<Dimension>)
    ensures ValidDimensions(ds) <==>
      && (forall d :: d in ds ==>
            d.key !in {TokenType, Source, InvocationKind, Locality, Calculation, Overflow} && |d.values| <= 128)
      && (forall d, v :: d in ds && v in d.values ==> 0 < |v| <= 80)
      && forall i, j :: 0 <= i < j < |ds| ==> ds[i].key != ds[j].key
  {
    hide ValidDimension;
    forall d | d in ds
      ensures ValidDimension(d) <==>
        d.key !in {TokenType, Source, InvocationKind, Locality, Calculation, Overflow} && |d.values| <= 128 &&
        forall v :: v in d.values ==> 0 < |v| <= 80
    {
      DimensionMeans(d);
    }
  }

  lemma DimensionMeans(d: Dimension)
    ensures ValidDimension(d) <==>
      d.key !in {TokenType, Source, InvocationKind, Locality, Calculation, Overflow} && |d.values| <= 128 &&
      forall v :: v in d.values ==> 0 < |v| <= 80
  {
    match d.key {
      case TokenType | Source | InvocationKind | Locality | Calculation | Overflow =>
      case _ => assert MetricDimension(d.key);
    }
    assert (forall v :: v in d.values ==> 0 < |v| <= 80) <==>
      (forall i :: 0 <= i < |d.values| ==> d.values[i] != "" && |d.values[i]| <= MAX_LABEL) by {
      if forall v :: v in d.values ==> 0 < |v| <= 80 {
        forall i | 0 <= i < |d.values|
          ensures d.values[i] != "" && |d.values[i]| <= MAX_LABEL
        {
          assert d.values[i] in d.values;
        }
      }
    }
  }

  method ValidateDimensions(ds: seq<Dimension>) returns (ok: bool)
    ensures ok <==> ValidDimensions(ds)
    ensures ok <==>
      && (forall d :: d in ds ==>
            d.key !in {TokenType, Source, InvocationKind, Locality, Calculation, Overflow} && |d.values| <= 128)
      && (forall d, v :: d in ds && v in d.values ==> 0 < |v| <= 80)
      && forall i, j :: 0 <= i < j < |ds| ==> ds[i].key != ds[j].key
  {
    DimensionsMean(ds);
    var seen: set<Key> := {};
    var i := 0;
    while i < |ds|
      invariant 0 <= i <= |ds|
      invariant seen == set k | 0 <= k < i :: ds[k].key
      invariant ValidDimensions(ds[..i])
    {
      var d := ds[i];
      if !ValidDimension(d) {
        return false;
      }
      if d.key in seen {
        return false;
      }
      seen := seen + {d.key};
      assert ds[..i + 1] == ds[..i] + [d];
      i := i + 1;
    }
    assert ds[..i] == ds;
    return true;
  }

  method ValidateProfile(p: Profile) returns (ok: bool)
    ensures ok <==> ValidProfile(p)
    ensures ok <==>
      && 0 < |p.policyId| <= 80 && 16 <= p.budget <= 4096 && |p.dimensions| <= 128 && ValidDimensions(p.dimensions)
      && forall d :: d in p.dimensions && d.key == Currency ==> |d.values| * 3 < p.budget
  {
    if p.policyId == "" || |p.policyId| > MAX_LABEL {
      return false;
    }
    if p.budget < MIN_BUDGET || p.budget > MAX_BUDGET || |p.dimensions| > MAX_ENTRIES {
      return false;
    }
    ok := ValidateDimensions(p.dimensions);
    if !ok {
      return;
    }
    var i := 0;
    while i < |p.dimensions|
      invariant 0 <= i <= |p.dimensions|
      invariant forall j :: 0 <= j < i && p.dimensions[j].key == Currency ==>
                  |p.dimensions[j].values| * PROVENANCE < p.budget
    {
      if p.dimensions[i].key == Currency && |p.dimensions[i].values| * PROVENANCE >= p.budget {
        return false;
      }
      i := i + 1;
    }
  }

  type Allowed = map<Key, set<Bytes>>

  /** The value sets of the dimensions. */
  function AllowedOf(ds: seq<Dimension>): Allowed
  {
    if ds == [] then map[]
    else
      var d := ds[|ds| - 1];
      AllowedOf(ds[..|ds| - 1])[d.key := set i | 0 <= i < |d.values| :: d.values[i]]
  }

  function Values(allowed: Allowed, k: Key): set<Bytes>
  {
    if k in allowed then allowed[k] else {}
  }

  // ----- normalization of one attribute

  /** Keys whose values always pass, in every series. */
  predicate Semantic(instrument: Instrument, k: Key)
  {
    k in {Calculation, InvocationKind, Locality, TokenType, Source, Status} || (instrument == Cost && k == Currency)
  }

  function ValueText(v: Value): Bytes
  {
    match v
    case Text(s) => s
    case Int(n) => FormatInt(n)
    case Bool(b) => if b then "true" else "false"
  }

  function NormalizeOne(allowed: Allowed, instrument: Instrument, a: Attribute): Attribute
  {
    if Semantic(instrument, a.key) || ValueText(a.value) in Values(allowed, a.key) then a
    else Attribute(a.key, if a.value.Int? then Int(0) else Text("unknown"))
  }

  function NormalizeAll(allowed: Allowed, instrument: Instrument, attrs: seq<Attribute>): (r: seq<Attribute>)
    ensures |r| == |attrs|
    ensures forall i :: 0 <= i < |attrs| ==> r[i] == NormalizeOne(allowed, instrument, attrs[i])
  {
    if attrs == [] then []
    else
      NormalizeAll(allowed, instrument, attrs[..|attrs| - 1])
      + [NormalizeOne(allowed, instrument, attrs[|attrs| - 1])]
  }

  function SemanticPart(instrument: Instrument, attrs: seq<Attribute>): seq<Attribute>
  {
    if attrs == [] then []
    else
      var last := attrs[|attrs| - 1];
      SemanticPart(instrument, attrs[..|attrs| - 1]) + if Semantic(instrument, last.key) then [last] else []
  }

  /** Series held back for overflow, so that it keeps the semantic keys apart. */
  function Reserve(allowed: Allowed, instrument: Instrument): (r: int)
  {
    match instrument
    case InputTokens => 3
    case OutputTokens => 3
    case TokenComponent => 9
    case Cost => (if |Values(allowed, Currency)| > 1 then |Values(allowed, Currency)| else 1) * PROVENANCE
    case VideoSeconds => 3
    case VideoFrames => 3
    case TokensPerSecond => 3
    case TokenInterval => 3
    case ToolDuration => 3
    case OperationDuration => 3
    case ObservedDuration => 3
    case InvocationDuration => 9
    case TimeToFirstToken => 1
  }

  lemma NormalizeNone(allowed: Allowed, instrument: Instrument)
    ensures NormalizeAll(allowed, instrument, []) == [] && SemanticPart(instrument, []) == []
  {
  }

  lemma NormalizeStep(allowed: Allowed, instrument: Instrument, attrs: seq<Attribute>, i: nat)
    requires i < |attrs|
    ensures var a := attrs[i];
      var passes := Semantic(instrument, a.key);
      && NormalizeAll(allowed, instrument, attrs[..i + 1]) ==
           NormalizeAll(allowed, instrument, attrs[..i])
           + [if passes || ValueText(a.value) in Values(allowed, a.key) then a
              else Attribute(a.key, if a.value.Int? then Int(0) else Text("unknown"))]
      && SemanticPart(instrument, attrs[..i + 1]) ==
           if passes then SemanticPart(instrument, attrs[..i]) + [a] else SemanticPart(instrument, attrs[..i])
  {
    hide Semantic, ValueText, Values;
    assert attrs[..i + 1][..i] == attrs[..i];
    AddEmpty(SemanticPart(instrument, attrs[..i]));
  }

  // ----- the allocator

  datatype State = State(budget: int, allowed: Allowed, combinations: map<Instrument, set<Series>>)

  function Seen(s: State, instrument: Instrument): set<Series>
  {
    if instrument in s.combinations then s.combinations[instrument] else {}
  }

  /** What one call does to the admitted combinations. */
  function NextState(s: State, instrument: Instrument, attrs: seq<Attribute>): State
  {
    var wanted := SeriesOf(NormalizeAll(s.allowed, instrument, attrs));
    var seen := Seen(s, instrument);
    if wanted in seen || |seen| >= s.budget - Reserve(s.allowed, instrument)
    then s.(combinations := s.combinations[instrument := seen])
    else s.(combinations := s.combinations[instrument := seen + {wanted}])
  }

  /** What one call returns. */
  function Output(s: State, instrument: Instrument, attrs: seq<Attribute>): seq<Attribute>
  {
    var normalized := NormalizeAll(s.allowed, instrument, attrs);
    var seen := Seen(s, instrument);
    if SeriesOf(normalized) in seen || |seen| < s.budget - Reserve(s.allowed, instrument) then normalized
    else SemanticPart(instrument, attrs) + [Attribute(Overflow, Bool(true))]
  }

  class MetricDimensions {
    const budget: int
    const allowed: Allowed
    var combinations: map<Instrument, set<Series>>

    function View(): State
      reads this
    {
      State(budget, allowed, combinations)
    }

    constructor (profile: Profile)
      ensures View() == State(profile.budget, AllowedOf(profile.dimensions), map[])
    {
      budget := profile.budget;
      var values: Allowed := map[];
      var i := 0;
      while i < |profile.dimensions|
        invariant 0 <= i <= |profile.dimensions|
        invariant values == AllowedOf(profile.dimensions[..i])
      {
        var d := profile.dimensions[i];
        assert profile.dimensions[..i + 1][..i] == profile.dimensions[..i];
        values := values[d.key := set k | 0 <= k < |d.values| :: d.values[k]];
        i := i + 1;
      }
      assert profile.dimensions[..i] == profile.dimensions;
      allowed := values;
      combinations := map[];
    }

    method Normalize(instrument: Instrument, attrs: seq<Attribute>) returns (out: seq<Attribute>)
      modifies this
      ensures View() == NextState(old(View()), instrument, attrs)
      ensures out == Output(old(View()), instrument, attrs)
    {
      hide Semantic, ValueText, Reserve, SeriesOf, Values, NormalizeAll, SemanticPart, NormalizeOne;
      NormalizeNone(allowed, instrument);
      var normalized, semantic: seq<Attribute> := [], [];
      var i := 0;
      while i < |attrs|
        invariant 0 <= i <= |attrs|
        invariant normalized == NormalizeAll(allowed, instrument, attrs[..i])
        invariant semantic == SemanticPart(instrument, attrs[..i])
        invariant combinations == old(combinations)
      {
        var attr := attrs[i];
        NormalizeStep(allowed, instrument, attrs, i);
        i := i + 1;
        if Semantic(instrument, attr.key) {
          normalized := normalized + [attr];
          semantic := semantic + [attr];
          continue;
        }
        if ValueText(attr.value) !in Values(allowed, attr.key) {
          if attr.value.Int? {
            attr := Attribute(attr.key, Int(0));
          } else {
            attr := Attribute(attr.key, Text("unknown"));
          }
        }
        normalized := normalized + [attr];
      }
      assert attrs[..i] == attrs;
      var wanted := SeriesOf(normalized);
      if instrument !in combinations {
        combinations := combinations[instrument := {}];
      }
      var seen := combinations[instrument];
      if wanted in seen {
        assert combinations == old(combinations)[instrument := seen];
        return normalized;
      }
      if |seen| < budget - Reserve(allowed, instrument) {
        combinations := combinations[instrument := seen + {wanted}];
        return normalized;
      }
      return semantic + [Attribute(Overflow, Bool(true))];
    }
  }

  // ----- sets of series

  /** The semantic series a recorder can ask for on each instrument. */
  function SemanticSeries(allowed: Allowed, instrument: Instrument): set<Series>
  {
    match instrument
    case InputTokens => OneKey(Source, SOURCES)
    case OutputTokens => OneKey(Source, SOURCES)
    case VideoSeconds => OneKey(Source, SOURCES)
    case VideoFrames => OneKey(Source, SOURCES)
    case TokenComponent => TwoKeys(TokenType, COMPONENTS, Source, SOURCES)
    case Cost => TwoKeys(Currency, Values(allowed, Currency), Source, SOURCES)
    case TokensPerSecond => TwoKeys(Calculation, {RATE}, Source, SOURCES)
    case TokenInterval => TwoKeys(Calculation, {INTERVAL}, Source, SOURCES)
    case ToolDuration => OneKey(Status, STATUSES)
    case OperationDuration => OneKey(Status, STATUSES)
    case ObservedDuration => OneKey(Status, STATUSES)
    case InvocationDuration => Grid(InvocationSeries, BOUNDARIES, STATUSES)
    case TimeToFirstToken => {map[]}
  }

  const CACHE_WRITE: Bytes := "input_cache_write"
  const CACHE_READ: Bytes := "input_cache_read"
  const REASONING: Bytes := "output_reasoning"
  const COMPONENTS: set<Bytes> := {CACHE_WRITE, CACHE_READ, REASONING}
  const RATE: Bytes := "output_tokens_over_generation_window"
  const INTERVAL: Bytes := "generation_window_over_output_token_intervals"

  const AGENT: Bytes := "agent"
  const WORKFLOW: Bytes := "workflow"
  const LOCAL: Bytes := "local"
  const REMOTE: Bytes := "remote"

  /** Kind and locality of an invocation: a workflow is always local. */
  const BOUNDARIES: set<(Bytes, Bytes)> := {(AGENT, LOCAL), (AGENT, REMOTE), (WORKFLOW, LOCAL)}

  function InvocationSeries(b: (Bytes, Bytes), status: Bytes): Series
  {
    map[InvocationKind := Text(b.0), Locality := Text(b.1), Status := Text(status)]
  }

  function Image<A(!new), B>(f: A -> B, s: set<A>): set<B>
  {
    set x | x in s :: f(x)
  }

  /** Every combination of two choices. */
  function Grid<A(!new), B(!new), C>(f: (A, B) -> C, s: set<A>, t: set<B>): set<C>
  {
    set x, y | x in s && y in t :: f(x, y)
  }

  function OneKey(k: Key, values: set<Bytes>): set<Series>
  {
    Image((v: Bytes) => map[k := Text(v)], values)
  }

  function TwoKeys(k: Key, values: set<Bytes>, l: Key, others: set<Bytes>): set<Series>
  {
    Grid((v: Bytes, w: Bytes) => map[k := Text(v), l := Text(w)], values, others)
  }

  lemma SubsetSize<T>(a: set<T>, b: set<T>)
    requires a <= b
    ensures |a| <= |b|
  {
    if a != b {
      assert b == a + (b - a);
    }
  }

  lemma {:induction false} ImageSize<A(!new), B>(f: A -> B, s: set<A>)
    ensures |Image(f, s)| <= |s|
    ensures (forall x, y :: x in s && y in s && f(x) == f(y) ==> x == y) ==> |Image(f, s)| == |s|
  {
    if s == {} {
      assert Image(f, s) == {};
    } else {
      var x :| x in s;
      ImageSize(f, s - {x});
      assert Image(f, s) == Image(f, s - {x}) + {f(x)};
    }
  }

  /** Different pairs make different combinations. */
  ghost predicate Separates<A(!new), B(!new), C>(f: (A, B) -> C)
  {
    forall x, y, v, w :: f(x, y) == f(v, w) ==> x == v && y == w
  }

  lemma {:induction false} GridSize<A(!new), B(!new), C>(f: (A, B) -> C, s: set<A>, t: set<B>)
    requires Separates(f)
    ensures |Grid(f, s, t)| == |s| * |t|
  {
    hide Separates, Image;
    if s == {} {
      assert Grid(f, s, t) == {};
    } else {
      hide Grid;
      var x :| x in s;
      var row, rest := Image(y => f(x, y), t), Grid(f, s - {x}, t);
      GridSize(f, s - {x}, t);
      RowSize(f, x, t);
      GridSplit(f, s, t, x);
      DisjointSize(rest, row);
      Distribute(|s|, |t|);
    }
  }

  lemma RowSize<A(!new), B(!new), C>(f: (A, B) -> C, x: A, t: set<B>)
    requires Separates(f)
    ensures |Image(y => f(x, y), t)| == |t|
  {
    hide Image;
    ImageSize(y => f(x, y), t);
  }

  lemma DisjointSize<T>(a: set<T>, b: set<T>)
    requires a !! b
    ensures |a + b| == |a| + |b|
  {
  }

  lemma GridSplit<A(!new), B(!new), C>(f: (A, B) -> C, s: set<A>, t: set<B>, x: A)
    requires x in s && Separates(f)
    ensures Grid(f, s, t) == Grid(f, s - {x}, t) + Image(y => f(x, y), t)
    ensures Grid(f, s - {x}, t) !! Image(y => f(x, y), t)
  {
  }

  lemma Distribute(a: nat, b: nat)
    requires a > 0
    ensures a * b == (a - 1) * b + b
  {
  }

  lemma ThreeOf<A>(a: A, b: A, c: A)
    requires a != b && a != c && b != c
    ensures |{a, b, c}| == 3
  {
    assert {a, b, c} == {a} + {b} + {c};
  }

  /** The reserve of each instrument is exactly the number of semantic series its recorders can
      produce; cost alone keeps a reserve when no currency is declared. */
  lemma ReserveCovers(allowed: Allowed, instrument: Instrument)
    ensures |SemanticSeries(allowed, instrument)| <= Reserve(allowed, instrument)
    ensures !(instrument == Cost && Values(allowed, Currency) == {}) ==>
              |SemanticSeries(allowed, instrument)| == Reserve(allowed, instrument)
  {
    hide OneKey, TwoKeys, Grid;
    FixedSets();
    OneKeySize(Source, SOURCES);
    OneKeySize(Status, STATUSES);
    TwoKeysSize(TokenType, COMPONENTS, Source, SOURCES);
    TwoKeysSize(Calculation, {RATE}, Source, SOURCES);
    TwoKeysSize(Calculation, {INTERVAL}, Source, SOURCES);
    TwoKeysSize(Currency, Values(allowed, Currency), Source, SOURCES);
    InvocationSize();
  }

  lemma InvocationSize()
    ensures |Grid(InvocationSeries, BOUNDARIES, STATUSES)| == 9
  {
    hide BOUNDARIES, STATUSES, Grid;
    FixedSets();
    forall b, c, s, t | InvocationSeries(b, s) == InvocationSeries(c, t)
      ensures b == c && s == t
    {
      assert InvocationSeries(b, s)[InvocationKind] == InvocationSeries(c, t)[InvocationKind];
      assert InvocationSeries(b, s)[Locality] == InvocationSeries(c, t)[Locality];
      assert InvocationSeries(b, s)[Status] == InvocationSeries(c, t)[Status];
    }
    GridSize(InvocationSeries, BOUNDARIES, STATUSES);
  }

  lemma OneKeySize(k: Key, values: set<Bytes>)
    ensures |OneKey(k, values)| == |values|
  {
    hide Image;
    var f := (v: Bytes) => map[k := Text(v)];
    forall v, w | f(v) == f(w)
      ensures v == w
    {
      assert f(v)[k] == f(w)[k];
    }
    ImageSize(f, values);
  }

  lemma TwoKeysSize(k: Key, values: set<Bytes>, l: Key, others: set<Bytes>)
    requires k != l
    ensures |TwoKeys(k, values, l, others)| == |values| * |others|
  {
    hide Grid;
    var f := (v: Bytes, w: Bytes) => map[k := Text(v), l := Text(w)];
    forall v, w, x, y | f(v, w) == f(x, y)
      ensures v == x && w == y
    {
      assert f(v, w)[k] == f(x, y)[k] && f(v, w)[l] == f(x, y)[l];
    }
    GridSize(f, values, others);
  }

  lemma FixedSets()
    ensures |SOURCES| == 3 && |STATUSES| == 3 && |COMPONENTS| == 3 && |BOUNDARIES| == 3
  {
    assert |MEASURED| == 8 && |PROVIDER| == 17 && |ESTIMATED| == 9;
    ThreeOf(MEASURED, PROVIDER, ESTIMATED);
    assert |OK| == 2 && OK[0] != UNSET[0] && ERROR[0] == 'e' && UNSET[0] == 'u';
    ThreeOf(OK, ERROR, UNSET);
    assert |CACHE_WRITE| == 17 && |CACHE_READ| == 16 && REASONING[0] == 'o' && CACHE_READ[0] == 'i';
    ThreeOf(CACHE_WRITE, CACHE_READ, REASONING);
    assert |LOCAL| == 5 && |REMOTE| == 6 && |AGENT| == 5 && |WORKFLOW| == 8;
    ThreeOf((AGENT, LOCAL), (AGENT, REMOTE), (WORKFLOW, LOCAL));
  }

  /** Under a valid profile every instrument keeps room for at least one admitted series. */
  lemma ReserveLeavesRoom(p: Profile, instrument: Instrument)
    requires ValidProfile(p)
    ensures 0 < Reserve(AllowedOf(p.dimensions), instrument) < p.budget
  {
    CurrencyCount(p.dimensions, p.budget);
  }

  lemma {:induction false} CurrencyCount(ds: seq<Dimension>, budget: int)
    requires budget >= MIN_BUDGET
    requires forall i :: 0 <= i < |ds| && ds[i].key == Currency ==> |ds[i].values| * PROVENANCE < budget
    ensures |Values(AllowedOf(ds), Currency)| * PROVENANCE < budget
  {
    if ds != [] {
      CurrencyCount(ds[..|ds| - 1], budget);
      var d := ds[|ds| - 1];
      if d.key == Currency {
        ValuesCount(d.values);
      }
    }
  }

  lemma {:induction false} ValuesCount(values: seq<Bytes>)
    ensures |set i | 0 <= i < |values| :: values[i]| <= |values|
  {
    var all := set i | 0 <= i < |values| :: values[i];
    if values == [] {
      assert all == {};
    } else {
      var rest := values[..|values| - 1];
      ValuesCount(rest);
      assert all == (set i | 0 <= i < |rest| :: rest[i]) + {values[|values| - 1]};
    }
  }

  // ----- meaning: the semantic keys of a list

  /** The series restricted to its semantic keys. */
  function Meaning(instrument: Instrument, attrs: seq<Attribute>): Series
  {
    map k | k in SeriesOf(attrs) && Semantic(instrument, k) :: SeriesOf(attrs)[k]
  }

  lemma SeriesSnoc(attrs: seq<Attribute>, a: Attribute)
    ensures SeriesOf(attrs + [a]) == SeriesOf(attrs)[a.key := a.value]
  {
    assert (attrs + [a])[..|attrs|] == attrs;
  }

  lemma MeaningSnoc(instrument: Instrument, attrs: seq<Attribute>, a: Attribute)
    ensures Meaning(instrument, attrs + [a]) ==
      if Semantic(instrument, a.key) then Meaning(instrument, attrs)[a.key := a.value] else Meaning(instrument, attrs)
  {
    hide Semantic, SeriesOf;
    SeriesSnoc(attrs, a);
  }

  lemma {:induction false} SeriesOfPart(instrument: Instrument, attrs: seq<Attribute>)
    ensures SeriesOf(SemanticPart(instrument, attrs)) == Meaning(instrument, attrs)
  {
    if attrs != [] {
      hide Semantic;
      var init, last := attrs[..|attrs| - 1], attrs[|attrs| - 1];
      assert attrs == init + [last];
      SeriesOfPart(instrument, init);
      MeaningSnoc(instrument, init, last);
      SeriesSnoc(SemanticPart(instrument, init), last);
      AddEmpty(SemanticPart(instrument, init));
    }
  }

  lemma {:induction false} NormalizedMeaning(allowed: Allowed, instrument: Instrument, attrs: seq<Attribute>)
    ensures Meaning(instrument, NormalizeAll(allowed, instrument, attrs)) == Meaning(instrument, attrs)
  {
    if attrs != [] {
      var init, last := attrs[..|attrs| - 1], attrs[|attrs| - 1];
      assert attrs == init + [last];
      NormalizedMeaning(allowed, instrument, init);
      NormalizedOne(allowed, instrument, last);
      MeaningSnoc(instrument, init, last);
      MeaningSnoc(instrument, NormalizeAll(allowed, instrument, init), NormalizeOne(allowed, instrument, last));
    }
  }

  lemma NormalizedOne(allowed: Allowed, instrument: Instrument, a: Attribute)
    ensures NormalizeOne(allowed, instrument, a).key == a.key
    ensures Semantic(instrument, a.key) ==> NormalizeOne(allowed, instrument, a) == a
  {
  }

  /** Overflow and normalization change no semantic key: different sources, outcomes,
      components or currencies never share a series. */
  lemma OutputKeepsMeaning(s: State, instrument: Instrument, attrs: seq<Attribute>)
    ensures Meaning(instrument, Output(s, instrument, attrs)) == Meaning(instrument, attrs)
  {
    hide Semantic, SeriesOf, NormalizeAll;
    var part := SemanticPart(instrument, attrs);
    NormalizedMeaning(s.allowed, instrument, attrs);
    SeriesOfPart(instrument, attrs);
    OverflowMeaning(instrument, part);
    MeaningTwice(instrument, attrs);
  }

  lemma OverflowMeaning(instrument: Instrument, part: seq<Attribute>)
    ensures SeriesOf(part + [Attribute(Overflow, Bool(true))]) == SeriesOf(part)[Overflow := Bool(true)]
    ensures Meaning(instrument, part + [Attribute(Overflow, Bool(true))]) == Meaning(instrument, part)
  {
    var all := part + [Attribute(Overflow, Bool(true))];
    assert all[..|all| - 1] == part;
  }

  lemma MeaningTwice(instrument: Instrument, attrs: seq<Attribute>)
    ensures Meaning(instrument, SemanticPart(instrument, attrs)) == Meaning(instrument, attrs)
  {
    SeriesOfPart(instrument, attrs);
  }

  /** What an output may contain: semantic values, allowed values, placeholders, overflow. */
  lemma OutputRevealsOnlyAllowed(s: State, instrument: Instrument, attrs: seq<Attribute>, i: nat)
    requires i < |Output(s, instrument, attrs)|
    ensures var a := Output(s, instrument, attrs)[i];
      || Semantic(instrument, a.key) || ValueText(a.value) in Values(s.allowed, a.key)
      || a.value == Int(0) || a.value == Text("unknown") || a == Attribute(Overflow, Bool(true))
  {
    SemanticPartSemantic(instrument, attrs);
  }

  lemma {:induction false} SemanticPartSemantic(instrument: Instrument, attrs: seq<Attribute>)
    ensures forall i :: 0 <= i < |SemanticPart(instrument, attrs)| ==>
              Semantic(instrument, SemanticPart(instrument, attrs)[i].key)
  {
    hide Semantic;
    if attrs != [] {
      SemanticPartSemantic(instrument, attrs[..|attrs| - 1]);
    }
  }

  // ----- whole runs

  /** One recording: an instrument, a value and attributes. */
  datatype Write = Write(instrument: Instrument, value: real, attrs: seq<Attribute>)

  function RunState(s: State, ws: seq<Write>): State
    decreases |ws|
  {
    if ws == [] then s else RunState(NextState(s, ws[0].instrument, ws[0].attrs), ws[1..])
  }

  /** The writes as exported. */
  function RunOutput(s: State, ws: seq<Write>): (r: seq<Write>)
    ensures |r| == |ws|
    decreases |ws|
  {
    if ws == [] then []
    else
      [ws[0].(attrs := Output(s, ws[0].instrument, ws[0].attrs))]
      + RunOutput(NextState(s, ws[0].instrument, ws[0].attrs), ws[1..])
  }

  /** The series of one instrument in a list of exported writes. */
  function Exported(instrument: Instrument, ws: seq<Write>): set<Series>
  {
    set i | 0 <= i < |ws| && ws[i].instrument == instrument :: SeriesOf(ws[i].attrs)
  }

  /** A write whose semantic keys are among those the library's recorders produce. */
  predicate LibraryWrite(allowed: Allowed, w: Write)
  {
    Meaning(w.instrument, w.attrs) in SemanticSeries(allowed, w.instrument)
  }

  predicate LibraryWrites(allowed: Allowed, ws: seq<Write>)
  {
    forall i :: 0 <= i < |ws| ==> LibraryWrite(allowed, ws[i])
  }

  /** No instrument has admitted into its reserve. */
  ghost predicate WithinReserve(s: State)
  {
    forall instrument :: |Seen(s, instrument)| <= s.budget - Reserve(s.allowed, instrument)
  }

  function OverflowSeries(allowed: Allowed, instrument: Instrument): set<Series>
  {
    Image((m: Series) => m[Overflow := Bool(true)], SemanticSeries(allowed, instrument))
  }

  lemma OverflowSize(allowed: Allowed, instrument: Instrument)
    ensures |OverflowSeries(allowed, instrument)| <= Reserve(allowed, instrument)
  {
    hide SemanticSeries, Image, Reserve;
    ImageSize((m: Series) => m[Overflow := Bool(true)], SemanticSeries(allowed, instrument));
    ReserveCovers(allowed, instrument);
  }

  lemma StepWithinReserve(s: State, instrument: Instrument, attrs: seq<Attribute>)
    requires WithinReserve(s)
    ensures WithinReserve(NextState(s, instrument, attrs))
    ensures forall other :: Seen(s, other) <= Seen(NextState(s, instrument, attrs), other)
  {
    hide Reserve, SeriesOf, NormalizeAll;
    var next := NextState(s, instrument, attrs);
    assert |Seen(s, instrument)| <= s.budget - Reserve(s.allowed, instrument);
    forall other
      ensures |Seen(next, other)| <= next.budget - Reserve(next.allowed, other)
      ensures Seen(s, other) <= Seen(next, other)
    {
      assert |Seen(s, other)| <= s.budget - Reserve(s.allowed, other);
    }
  }

  /** One call returns an admitted series or one of the reserved overflow series. */
  lemma StepOutput(s: State, w: Write)
    requires LibraryWrite(s.allowed, w)
    ensures var r := SeriesOf(Output(s, w.instrument, w.attrs));
      r in Seen(NextState(s, w.instrument, w.attrs), w.instrument) || r in OverflowSeries(s.allowed, w.instrument)
  {
    hide Reserve, SemanticSeries, NormalizeAll, Semantic;
    var part := SemanticPart(w.instrument, w.attrs);
    SeriesOfPart(w.instrument, w.attrs);
    OverflowMeaning(w.instrument, part);
  }

  lemma {:induction false} RunSeen(s: State, ws: seq<Write>)
    requires WithinReserve(s)
    ensures WithinReserve(RunState(s, ws)) && RunState(s, ws).allowed == s.allowed && RunState(s, ws).budget == s.budget
    ensures forall other :: Seen(s, other) <= Seen(RunState(s, ws), other)
    decreases |ws|
  {
    hide Reserve, NextState, WithinReserve;
    if ws != [] {
      StepWithinReserve(s, ws[0].instrument, ws[0].attrs);
      StateFixed(s, ws[0].instrument, ws[0].attrs);
      RunSeen(NextState(s, ws[0].instrument, ws[0].attrs), ws[1..]);
    }
  }

  lemma StateFixed(s: State, instrument: Instrument, attrs: seq<Attribute>)
    ensures NextState(s, instrument, attrs).allowed == s.allowed && NextState(s, instrument, attrs).budget == s.budget
  {
  }

  lemma ExportedCons(instrument: Instrument, w: Write, ws: seq<Write>)
    ensures Exported(instrument, [w] + ws)
         == (if w.instrument == instrument then {SeriesOf(w.attrs)} else {}) + Exported(instrument, ws)
  {
    hide SeriesOf;
    var all := [w] + ws;
    assert all[0] == w;
    assert forall i :: 0 <= i < |ws| ==> all[i + 1] == ws[i];
  }

  lemma LibraryTail(allowed: Allowed, ws: seq<Write>)
    requires LibraryWrites(allowed, ws) && ws != []
    ensures LibraryWrite(allowed, ws[0]) && LibraryWrites(allowed, ws[1..])
  {
    hide LibraryWrite;
    assert forall i :: 0 <= i < |ws[1..]| ==> ws[1..][i] == ws[i + 1];
  }

  lemma {:induction false} RunExports(s: State, ws: seq<Write>, instrument: Instrument)
    requires WithinReserve(s) && LibraryWrites(s.allowed, ws)
    ensures Exported(instrument, RunOutput(s, ws)) <=
              Seen(RunState(s, ws), instrument) + OverflowSeries(s.allowed, instrument)
    decreases |ws|
  {
    hide Reserve, NextState, WithinReserve, Output, LibraryWrite, LibraryWrites, OverflowSeries, SeriesOf, Seen;
    if ws != [] {
      hide Exported;
      var w := ws[0];
      var next := NextState(s, w.instrument, w.attrs);
      LibraryTail(s.allowed, ws);
      StepOutput(s, w);
      StepWithinReserve(s, w.instrument, w.attrs);
      StateFixed(s, w.instrument, w.attrs);
      RunExports(next, ws[1..], instrument);
      RunSeen(next, ws[1..]);
      ExportedCons(instrument, w.(attrs := Output(s, w.instrument, w.attrs)), RunOutput(next, ws[1..]));
    }
  }

  /** Over every run of the library's recorders, the series ever exported for an
      instrument, overflow included, stay within the profile's budget. */
  lemma SeriesBudgetHolds(p: Profile, ws: seq<Write>, instrument: Instrument)
    requires ValidProfile(p) && LibraryWrites(AllowedOf(p.dimensions), ws)
    ensures |Exported(instrument, RunOutput(State(p.budget, AllowedOf(p.dimensions), map[]), ws))| <= p.budget
  {
    hide Reserve, SeriesOf, OverflowSeries, RunOutput, RunState, ValidProfile, LibraryWrite, Exported;
    var s := State(p.budget, AllowedOf(p.dimensions), map[]);
    forall i: Instrument
      ensures |Seen(s, i)| <= s.budget - Reserve(s.allowed, i)
    {
      ReserveLeavesRoom(p, i);
    }
    RunExports(s, ws, instrument);
    RunSeen(s, ws);
    var seen, over := Seen(RunState(s, ws), instrument), OverflowSeries(s.allowed, instrument);
    OverflowSize(s.allowed, instrument);
    SubsetSize(Exported(instrument, RunOutput(s, ws)), seen + over);
    assert |seen + over| <= |seen| + |over|;
    assert |seen| <= s.budget - Reserve(s.allowed, instrument);
  }

  /** A combination once admitted is never overflowed later. */
  lemma {:induction false} AdmittedStays(s: State, ws: seq<Write>, j: nat)
    requires WithinReserve(s) && j < |ws|
    requires SeriesOf(NormalizeAll(s.allowed, ws[j].instrument, ws[j].attrs)) in Seen(s, ws[j].instrument)
    ensures RunOutput(s, ws)[j].attrs == NormalizeAll(s.allowed, ws[j].instrument, ws[j].attrs)
    decreases |ws|
  {
    hide Reserve, WithinReserve, SeriesOf, NormalizeAll;
    if j > 0 {
      var next := NextState(s, ws[0].instrument, ws[0].attrs);
      StepWithinReserve(s, ws[0].instrument, ws[0].attrs);
      StateFixed(s, ws[0].instrument, ws[0].attrs);
      AdmittedStays(next, ws[1..], j - 1);
    }
  }

  // ----- conservation of totals

  /** The total recorded for one instrument under one tuple of semantic keys. */
  function TotalFor(ws: seq<Write>, instrument: Instrument, meaning: Series): real
  {
    if ws == [] then 0.0
    else
      (if ws[0].instrument == instrument && Meaning(instrument, ws[0].attrs) == meaning then ws[0].value else 0.0)
      + TotalFor(ws[1..], instrument, meaning)
  }

  /** Normalization and overflow conserve every total: what is recorded for a source, an
      outcome or a currency is exported for it, whatever was admitted. */
  lemma {:induction false} TotalsConserved(s: State, ws: seq<Write>, instrument: Instrument, meaning: Series)
    ensures TotalFor(RunOutput(s, ws), instrument, meaning) == TotalFor(ws, instrument, meaning)
    decreases |ws|
  {
    hide NextState, Output, Meaning;
    if ws != [] {
      var next := NextState(s, ws[0].instrument, ws[0].attrs);
      OutputKeepsMeaning(s, ws[0].instrument, ws[0].attrs);
      TotalsConserved(next, ws[1..], instrument, meaning);
      assert RunOutput(s, ws)[1..] == RunOutput(next, ws[1..]);
    }
  }
}
