/** The auditor of recorded usage (genai/conformance_evidence.go) against the recorder. */
module Accounting {
  import opened Bytes
  import opened Decimals
  import opened Usage
  import opened Cardinality
  import opened Recorder

  const TWO_64: int := 0x1_0000_0000_0000_0000
  const MAX_ITEMS: int := 128

  /** Two's complement arithmetic of int64. */
  function Wrap(x: int): (r: int)
    ensures -MAX_INT64 - 1 <= r <= MAX_INT64
    ensures -MAX_INT64 - 1 <= x <= MAX_INT64 ==> r == x
  {
    (x + MAX_INT64 + 1) % TWO_64 - MAX_INT64 - 1
  }

  /** Observations of one instrument: their number, and their sum in the instrument's own channel. */
  datatype Tally = Tally(count: nat, total: real, integer: int)

  const NOTHING: Tally := Tally(0, 0.0, 0)

  function Plus(a: Tally, b: Tally): Tally { Tally(a.count + b.count, a.total + b.total, a.integer + b.integer) }

  lemma PlusAssoc(a: Tally, b: Tally, c: Tally)
    ensures Plus(Plus(a, b), c) == Plus(a, Plus(b, c))
    ensures Plus(a, NOTHING) == a && Plus(NOTHING, a) == a
  {
  }

  type Tallies = map<Instrument, Tally>

  function Get(m: Tallies, i: Instrument): Tally { if i in m then m[i] else NOTHING }

  predicate Integral(i: Instrument) { i in {OutputTokens, InputTokens, TokenComponent, VideoFrames} }

  const AUDITED: seq<Instrument> := [OutputTokens, InputTokens, TokenComponent, Cost, VideoSeconds, VideoFrames]

  // ----- the evidence as a map

  /** A witness for one instrument; None stands for a name the schema does not know. */
  datatype AccountingMeasurement = AccountingMeasurement(instrument: Option<Instrument>, count: nat, total: Float,
    integer: int)

  predicate Sound(m: AccountingMeasurement)
  {
    && m.instrument.Some? && m.total.Finite? && m.total.r >= 0.0 && m.integer >= 0
    && (m.count == 0 ==> m.total.r == 0.0 && m.integer == 0)
    && if Integral(m.instrument.value) then m.total.r == 0.0 else m.integer == 0
  }

  function TallyOf(m: AccountingMeasurement): Tally
  {
    Tally(m.count, if m.total.Finite? then m.total.r else 0.0, m.integer)
  }

  ghost predicate Coherent(items: seq<AccountingMeasurement>)
  {
    (forall i :: 0 <= i < |items| ==> Sound(items[i])) &&
    forall i, j :: 0 <= i < j < |items| ==> items[i].instrument != items[j].instrument
  }

  function MapOf(items: seq<AccountingMeasurement>): Tallies
  {
    if items == [] then map[]
    else
      var last := items[|items| - 1];
      if last.instrument == None then MapOf(items[..|items| - 1])
      else MapOf(items[..|items| - 1])[last.instrument.value := TallyOf(last)]
  }

  lemma {:induction false} MapOfKeys(items: seq<AccountingMeasurement>)
    ensures forall k :: k in MapOf(items) <==> exists i :: 0 <= i < |items| && items[i].instrument == Some(k)
  {
    if items != [] {
      var init, last := items[..|items| - 1], items[|items| - 1];
      MapOfKeys(init);
      forall k
        ensures k in MapOf(items) <==> exists i :: 0 <= i < |items| && items[i].instrument == Some(k)
      {
        if k in MapOf(init) {
          var i :| 0 <= i < |init| && init[i].instrument == Some(k);
          assert items[i].instrument == Some(k);
        }
        if i :| 0 <= i < |items| && items[i].instrument == Some(k) {
          if i < |init| {
            assert init[i].instrument == Some(k);
          }
        }
      }
    }
  }

  /** The map of coherent evidence gives back every item. */
  lemma {:induction false} MapOfHolds(items: seq<AccountingMeasurement>, i: nat)
    requires Coherent(items) && i < |items|
    ensures items[i].instrument.Some? && Get(MapOf(items), items[i].instrument.value) == TallyOf(items[i])
  {
    hide TallyOf;
    var init := items[..|items| - 1];
    if i < |init| {
      assert Coherent(init);
      MapOfHolds(init, i);
      MapOfKeys(init);
      assert init[i].instrument == items[i].instrument;
      assert items[i].instrument != items[|items| - 1].instrument;
    }
  }

  method AccountingMap(items: seq<AccountingMeasurement>) returns (r: Option<Tallies>)
    ensures r.Some? <==> Coherent(items)
    ensures r.Some? ==> r.value == MapOf(items)
  {
    hide Sound, TallyOf;
    var result: Tallies := map[];
    var i := 0;
    while i < |items|
      invariant 0 <= i <= |items|
      invariant Coherent(items[..i]) && result == MapOf(items[..i])
    {
      var item := items[i];
      if !Sound(item) {
        return None;
      }
      SoundNamed(item);
      MapOfKeys(items[..i]);
      if item.instrument.value in result {
        assert exists j :: 0 <= j < i && items[..i][j].instrument == item.instrument;
        return None;
      }
      assert items[..i + 1][..i] == items[..i];
      forall j | 0 <= j < i
        ensures items[j].instrument != item.instrument
      {
        assert items[..i][j].instrument == items[j].instrument;
      }
      result := result[item.instrument.value := TallyOf(item)];
      i := i + 1;
    }
    assert items[..i] == items;
    return Some(result);
  }

  lemma SoundNamed(m: AccountingMeasurement)
    requires Sound(m)
    ensures m.instrument.Some?
  {
  }

  // ----- what a usage requires

  datatype Item = Item(instrument: Instrument, present: bool, value: Float, integer: int)

  function IntItem(i: Instrument, m: Measurement<int>): Item { Item(i, m.present, Finite(0.0), m.value) }

  function FloatItem(i: Instrument, m: Measurement<Float>): Item { Item(i, m.present, m.value, 0) }

  function UsageItems(u: Usage): seq<Item>
  {
    [IntItem(InputTokens, u.inputTokens)] + [IntItem(OutputTokens, u.outputTokens)]
    + [IntItem(TokenComponent, u.cacheRead)] + [IntItem(TokenComponent, u.cacheWrite)]
    + [IntItem(TokenComponent, u.reasoning)] + [FloatItem(Cost, u.cost)]
    + [FloatItem(VideoSeconds, u.videoSeconds)] + [IntItem(VideoFrames, u.videoFrames)]
  }

  /** A running requirement: a float total that is not finite matches nothing. */
  datatype Wanted = Wanted(count: nat, total: Float, integer: int)

  function WantedOf(required: map<Instrument, Wanted>, i: Instrument): Wanted
  {
    if i in required then required[i] else Wanted(0, Finite(0.0), 0)
  }

  function AddFloat(a: Float, b: Float): Float
  {
    if a.Finite? && b.Finite? then Finite(a.r + b.r) else NotANumber
  }

  /** One present measurement more; None when the integer total would overflow. */
  function AddItem(required: map<Instrument, Wanted>, item: Item): Option<map<Instrument, Wanted>>
  {
    if !item.present then Some(required)
    else
      var v := WantedOf(required, item.instrument);
      if item.integer > Wrap(MAX_INT64 - v.integer) then None
      else
        Some(required[item.instrument :=
          Wanted(v.count + 1, AddFloat(v.total, item.value), Wrap(v.integer + item.integer))])
  }

  function Required(items: seq<Item>): Option<map<Instrument, Wanted>>
  {
    if items == [] then Some(map[])
    else
      match Required(items[..|items| - 1])
      case None => None
      case Some(required) => AddItem(required, items[|items| - 1])
  }

  predicate Agrees(w: Wanted, got: Tally)
  {
    w.count == got.count && w.total == Finite(got.total) && w.integer == got.integer
  }

  predicate Matches(u: Usage, expected: Tallies)
  {
    var required := Required(UsageItems(u));
    required.Some? && forall k :: 0 <= k < |AUDITED| ==>
      Agrees(WantedOf(required.value, AUDITED[k]), Get(expected, AUDITED[k]))
  }

  method UsageAccountingMatches(u: Usage, expected: Tallies) returns (ok: bool)
    ensures ok <==> Matches(u, expected)
  {
    hide AddItem, Agrees, WantedOf;
    var items := UsageItems(u);
    var required: map<Instrument, Wanted> := map[];
    var i := 0;
    while i < |items|
      invariant 0 <= i <= |items|
      invariant Required(items[..i]) == Some(required)
    {
      var next := AddItem(required, items[i]);
      RequiredStep(items, i);
      if next == None {
        RequiredFails(items, i + 1);
        return false;
      }
      required := next.value;
      i := i + 1;
    }
    assert items[..i] == items;
    i := 0;
    while i < |AUDITED|
      invariant 0 <= i <= |AUDITED|
      invariant forall k :: 0 <= k < i ==> Agrees(WantedOf(required, AUDITED[k]), Get(expected, AUDITED[k]))
    {
      if !Agrees(WantedOf(required, AUDITED[i]), Get(expected, AUDITED[i])) {
        return false;
      }
      i := i + 1;
    }
    return true;
  }

  lemma RequiredStep(items: seq<Item>, i: nat)
    requires i < |items| && Required(items[..i]).Some?
    ensures Required(items[..i + 1]) == AddItem(Required(items[..i]).value, items[i])
  {
    hide AddItem;
    assert items[..i + 1][..i] == items[..i];
  }

  lemma {:induction false} RequiredFails(items: seq<Item>, i: nat)
    requires i <= |items| && Required(items[..i]) == None
    ensures Required(items) == None
    decreases |items| - i
  {
    hide AddItem;
    if i == |items| {
      assert items[..i] == items;
    } else {
      assert items[..i + 1][..i] == items[..i];
      RequiredFails(items, i + 1);
    }
  }

  // ----- the requirement in closed form

  function TallyItem(item: Item, i: Instrument): Tally
  {
    if item.present && item.instrument == i
    then Tally(1, if item.value.Finite? then item.value.r else 0.0, item.integer)
    else NOTHING
  }

  predicate Exact(items: seq<Item>)
  {
    forall k :: 0 <= k < |items| ==> items[k].value.Finite? && 0 <= items[k].integer <= MAX_INT64
  }

  function TallyItems(items: seq<Item>, i: Instrument): Tally
  {
    if items == [] then NOTHING
    else Plus(TallyItems(items[..|items| - 1], i), TallyItem(items[|items| - 1], i))
  }

  function WantedTally(t: Tally): Wanted { Wanted(t.count, Finite(t.total), t.integer) }

  lemma ExactInit(items: seq<Item>)
    requires Exact(items) && items != []
    ensures Exact(items[..|items| - 1])
    ensures items[|items| - 1].value.Finite? && 0 <= items[|items| - 1].integer <= MAX_INT64
  {
  }

  /** Adding an item changes the requirement of its own instrument only. */
  lemma AddItemOwn(required: map<Instrument, Wanted>, item: Item, own: Tally)
    requires item.value.Finite? && 0 <= item.integer <= MAX_INT64
    requires WantedOf(required, item.instrument) == WantedTally(own) && 0 <= own.integer <= MAX_INT64
    requires item.present
    ensures AddItem(required, item).Some? <==> own.integer + TallyItem(item, item.instrument).integer <= MAX_INT64
    ensures AddItem(required, item).Some? ==>
              (WantedOf(AddItem(required, item).value, item.instrument)
               == WantedTally(Plus(own, TallyItem(item, item.instrument))))
  {
    hide Wrap;
  }

  lemma AddItemOther(required: map<Instrument, Wanted>, item: Item, i: Instrument, other: Tally)
    requires WantedOf(required, i) == WantedTally(other) && (!item.present || i != item.instrument)
    ensures !item.present ==> AddItem(required, item).Some?
    ensures AddItem(required, item).Some? ==>
              WantedOf(AddItem(required, item).value, i) == WantedTally(Plus(other, TallyItem(item, i)))
    ensures TallyItem(item, i) == NOTHING && Plus(other, TallyItem(item, i)) == other
  {
    hide Wrap, Plus, WantedTally;
    PlusAssoc(other, NOTHING, NOTHING);
  }

  lemma AddItemTally(required: map<Instrument, Wanted>, init: seq<Item>, item: Item)
    requires item.value.Finite? && 0 <= item.integer <= MAX_INT64
    requires forall i ::
               WantedOf(required, i) == WantedTally(TallyItems(init, i))
                 && 0 <= TallyItems(init, i).integer <= MAX_INT64
    ensures AddItem(required, item).Some? <==>
              TallyItems(init, item.instrument).integer + TallyItem(item, item.instrument).integer <= MAX_INT64
    ensures AddItem(required, item).Some? ==>
              forall i :: WantedOf(AddItem(required, item).value, i) ==
                WantedTally(Plus(TallyItems(init, i), TallyItem(item, i)))
  {
    hide AddItem, TallyItems, TallyItem, WantedOf, WantedTally, Plus;
    var own := TallyItems(init, item.instrument);
    assert WantedOf(required, item.instrument) == WantedTally(own);
    if item.present {
      AddItemOwn(required, item, own);
    } else {
      AddItemOther(required, item, item.instrument, own);
    }
    if AddItem(required, item).Some? {
      forall i
        ensures WantedOf(AddItem(required, item).value, i) == WantedTally(Plus(TallyItems(init, i), TallyItem(item, i)))
      {
        assert WantedOf(required, i) == WantedTally(TallyItems(init, i));
        if !item.present || i != item.instrument {
          AddItemOther(required, item, i, TallyItems(init, i));
        }
      }
    }
  }

  /** For non-negative items nothing wraps: the fold fails exactly when one instrument's sum leaves int64. */
  lemma {:induction false} RequiredIsTally(items: seq<Item>)
    requires Exact(items)
    ensures Required(items).Some? <==> forall i :: TallyItems(items, i).integer <= MAX_INT64
    ensures Required(items).Some? ==>
      forall i :: WantedOf(Required(items).value, i) == WantedTally(TallyItems(items, i))
    ensures forall i :: TallyItems(items, i).integer >= 0
  {
    hide Exact, AddItem, TallyItem, TallyItems, WantedOf, Required;
    if items == [] {
      NothingRequired();
      forall i
        ensures WantedOf(map[], i) == WantedTally(TallyItems([], i)) && TallyItems([], i) == NOTHING
      {
        NoItems(i);
      }
    } else {
      var init, last := items[..|items| - 1], items[|items| - 1];
      ExactInit(items);
      RequiredIsTally(init);
      RequiredLast(items);
      forall i
        ensures TallyItems(items, i) == Plus(TallyItems(init, i), TallyItem(last, i)) && TallyItem(last, i).integer >= 0
        ensures TallyItem(last, i).integer > 0 ==> i == last.instrument
      {
        TallyLast(items, i);
      }
      if Required(init).Some? {
        AddItemTally(Required(init).value, init, last);
        assert TallyItems(items, last.instrument) ==
          Plus(TallyItems(init, last.instrument), TallyItem(last, last.instrument));
      } else {
        var i :| TallyItems(init, i).integer > MAX_INT64;
        assert TallyItems(items, i) == Plus(TallyItems(init, i), TallyItem(last, i));
      }
    }
  }

  lemma NothingRequired()
    ensures Required([]) == Some(map[]) && forall i :: WantedOf(map[], i) == WantedTally(NOTHING)
  {
  }

  lemma RequiredLast(items: seq<Item>)
    requires items != []
    ensures Required(items) ==
      match Required(items[..|items| - 1])
      case None => None
      case Some(required) => AddItem(required, items[|items| - 1])
  {
  }

  lemma TallyLast(items: seq<Item>, i: Instrument)
    requires items != [] && items[|items| - 1].integer >= 0
    ensures TallyItems(items, i) == Plus(TallyItems(items[..|items| - 1], i), TallyItem(items[|items| - 1], i))
    ensures TallyItem(items[|items| - 1], i).integer >= 0
    ensures TallyItem(items[|items| - 1], i).integer > 0 ==> i == items[|items| - 1].instrument
  {
    hide TallyItem, Plus;
    TallyItemSign(items[|items| - 1], i);
  }

  lemma TallyItemSign(item: Item, i: Instrument)
    requires item.integer >= 0
    ensures TallyItem(item, i).integer >= 0
    ensures TallyItem(item, i).integer > 0 ==> i == item.instrument
  {
  }

  lemma {:induction false} TallyItemsConcat(a: seq<Item>, b: seq<Item>, i: Instrument)
    ensures TallyItems(a + b, i) == Plus(TallyItems(a, i), TallyItems(b, i))
  {
    hide TallyItem, Plus;
    PlusAssoc(TallyItems(a, i), NOTHING, NOTHING);
    if b == [] {
      AddEmpty(a);
    } else {
      var init, last := b[..|b| - 1], b[|b| - 1];
      TallyItemsConcat(a, init, i);
      assert (a + b)[..|a + b| - 1] == a + init;
      PlusAssoc(TallyItems(a, i), TallyItems(init, i), TallyItem(last, i));
    }
  }

  // ----- what the writes witness

  function TallyWrite(w: Write, i: Instrument): Tally
  {
    if w.instrument != i then NOTHING
    else if Integral(i) then Tally(1, 0.0, w.value.Floor)
    else Tally(1, w.value, 0)
  }

  /** Number and sum of the observations that reached an instrument. */
  function Witness(ws: seq<Write>, i: Instrument): Tally
  {
    if ws == [] then NOTHING else Plus(TallyWrite(ws[0], i), Witness(ws[1..], i))
  }

  lemma {:induction false} WitnessConcat(a: seq<Write>, b: seq<Write>, i: Instrument)
    ensures Witness(a + b, i) == Plus(Witness(a, i), Witness(b, i))
  {
    hide TallyWrite, Plus;
    PlusAssoc(Witness(b, i), NOTHING, NOTHING);
    if a == [] {
      assert a + b == b;
    } else {
      WitnessConcat(a[1..], b, i);
      assert (a + b)[1..] == a[1..] + b;
      PlusAssoc(TallyWrite(a[0], i), Witness(a[1..], i), Witness(b, i));
    }
  }

  /** Normalization of attributes loses and adds no observation. */
  lemma {:induction false} ExportKeepsWitness(s: State, ws: seq<Write>, i: Instrument)
    ensures Witness(RunOutput(s, ws), i) == Witness(ws, i)
    decreases |ws|
  {
    hide NextState, Output, TallyWrite, Plus;
    if ws != [] {
      var next := NextState(s, ws[0].instrument, ws[0].attrs);
      ExportKeepsWitness(next, ws[1..], i);
      TallyIgnoresAttributes(ws[0], Output(s, ws[0].instrument, ws[0].attrs), i);
      DropTake([RunOutput(s, ws)[0]], RunOutput(next, ws[1..]));
    }
  }

  lemma TallyIgnoresAttributes(w: Write, attrs: seq<Attribute>, i: Instrument)
    ensures TallyWrite(w.(attrs := attrs), i) == TallyWrite(w, i)
  {
  }

  lemma OneWrite(w: Write, i: Instrument)
    ensures Witness([w], i) == TallyWrite(w, i)
  {
    hide TallyWrite, Plus;
    PlusAssoc(TallyWrite(w, i), NOTHING, NOTHING);
    assert [w][1..] == [];
  }

  lemma OneItem(item: Item, i: Instrument)
    ensures TallyItems([item], i) == TallyItem(item, i)
  {
    hide TallyItem, Plus;
    assert [item][..0] == [];
    PlusAssoc(TallyItem(item, i), NOTHING, NOTHING);
  }

  lemma WholeTally(at: Instrument, m: Measurement<int>, attrs: seq<Attribute>, i: Instrument)
    requires Integral(at) && m.present
    ensures TallyWrite(Write(at, m.value as real, attrs), i) == TallyItem(IntItem(at, m), i)
  {
  }

  lemma IntWitness(at: Instrument, m: Measurement<int>, attrs: seq<Attribute>, i: Instrument)
    requires Integral(at)
    ensures Witness(IntWrites(at, m, attrs), i) == TallyItems([IntItem(at, m)], i)
  {
    hide With, TallyWrite, TallyItems, Integral;
    OneItem(IntItem(at, m), i);
    if m.present {
      WholeTally(at, m, With(attrs, Source, m.source), i);
      OneWrite(Write(at, m.value as real, With(attrs, Source, m.source)), i);
    }
  }

  lemma FloatWitness(at: Instrument, m: Measurement<Float>, attrs: seq<Attribute>, i: Instrument)
    requires !Integral(at) && m.value.Finite?
    ensures Witness(FloatWrites(at, m, attrs), i) == TallyItems([FloatItem(at, m)], i)
  {
    hide With, TallyItems, Witness;
    OneItem(FloatItem(at, m), i);
    if m.present {
      OneWrite(Write(at, m.value.r, With(attrs, Source, m.source)), i);
    } else {
      NoWrites(i);
    }
  }

  lemma NoWrites(i: Instrument)
    ensures Witness([], i) == NOTHING
  {
  }

  /** Every integer of the usage is an int64. */
  predicate Int64Usage(u: Usage)
  {
    && u.inputTokens.value <= MAX_INT64 && u.outputTokens.value <= MAX_INT64 && u.cacheWrite.value <= MAX_INT64
    && u.cacheRead.value <= MAX_INT64 && u.reasoning.value <= MAX_INT64 && u.videoFrames.value <= MAX_INT64
  }

  lemma TokenWitness(u: Usage, base: seq<Attribute>, i: Instrument)
    requires ValidUsage(u)
    ensures var items := [IntItem(InputTokens, u.inputTokens)] + [IntItem(OutputTokens, u.outputTokens)]
        + [IntItem(TokenComponent, u.cacheRead)] + [IntItem(TokenComponent, u.cacheWrite)]
          + [IntItem(TokenComponent, u.reasoning)];
      Witness(TokenWrites(u, base), i) == TallyItems(items, i)
  {
    hide Witness, TallyItems, IntWrites, IntItem, With;
    var a, b := IntWrites(InputTokens, u.inputTokens, base), IntWrites(OutputTokens, u.outputTokens, base);
    var c := IntWrites(TokenComponent, u.cacheWrite, With(base, TokenType, CACHE_WRITE));
    var d := IntWrites(TokenComponent, u.cacheRead, With(base, TokenType, CACHE_READ));
    var e := IntWrites(TokenComponent, u.reasoning, With(base, TokenType, REASONING));
    WitnessConcat(a, b, i);
    WitnessConcat(a + b, c, i);
    WitnessConcat(a + b + c, d, i);
    WitnessConcat(a + b + c + d, e, i);
    IntWitness(InputTokens, u.inputTokens, base, i);
    IntWitness(OutputTokens, u.outputTokens, base, i);
    IntWitness(TokenComponent, u.cacheWrite, With(base, TokenType, CACHE_WRITE), i);
    IntWitness(TokenComponent, u.cacheRead, With(base, TokenType, CACHE_READ), i);
    IntWitness(TokenComponent, u.reasoning, With(base, TokenType, REASONING), i);
    var p, q := [IntItem(InputTokens, u.inputTokens)], [IntItem(OutputTokens, u.outputTokens)];
    var r, s := [IntItem(TokenComponent, u.cacheRead)], [IntItem(TokenComponent, u.cacheWrite)];
    var t := [IntItem(TokenComponent, u.reasoning)];
    TallyItemsConcat(p, q, i);
    TallyItemsConcat(p + q, r, i);
    TallyItemsConcat(p + q + r, s, i);
    TallyItemsConcat(p + q + r + s, t, i);
  }

  /** What is written for a usage is what its items add up to. */
  lemma UsageWitness(labels: Labels, meta: Meta, u: Usage, i: Instrument)
    requires ValidUsage(u) && labels(OperationName, meta.operation) != ""
    ensures Witness(UsageWrites(labels, meta, u), i) == TallyItems(UsageItems(u), i)
  {
    hide Witness, TallyItems, IntWrites, FloatWrites, IntItem, FloatItem, With, TokenWrites, CostAttributes, HasUsage;
    var base := BaseAttributes(MetricMeta(labels, meta)).value;
    var tokens := [IntItem(InputTokens, u.inputTokens)] + [IntItem(OutputTokens, u.outputTokens)]
      + [IntItem(TokenComponent, u.cacheRead)] + [IntItem(TokenComponent, u.cacheWrite)]
        + [IntItem(TokenComponent, u.reasoning)];
    TokenWitness(u, base, i);
    FloatWitness(Cost, u.cost, CostAttributes(u, base), i);
    FloatWitness(VideoSeconds, u.videoSeconds, base, i);
    IntWitness(VideoFrames, u.videoFrames, base, i);
    var a, b := TokenWrites(u, base), FloatWrites(Cost, u.cost, CostAttributes(u, base));
    var c, d := FloatWrites(VideoSeconds, u.videoSeconds, base), IntWrites(VideoFrames, u.videoFrames, base);
    WitnessConcat(a, b, i);
    WitnessConcat(a + b, c, i);
    WitnessConcat(a + b + c, d, i);
    var p, q, r := [FloatItem(Cost, u.cost)], [FloatItem(VideoSeconds, u.videoSeconds)],
      [IntItem(VideoFrames, u.videoFrames)];
    TallyItemsConcat(tokens, p, i);
    TallyItemsConcat(tokens + p, q, i);
    TallyItemsConcat(tokens + p + q, r, i);
    NoUsageNoWrites(labels, meta, u);
  }

  /** Without any measurement there is nothing to write either way. */
  lemma NoUsageNoWrites(labels: Labels, meta: Meta, u: Usage)
    requires ValidUsage(u) && labels(OperationName, meta.operation) != ""
    ensures var base := BaseAttributes(MetricMeta(labels, meta)).value;
      UsageWrites(labels, meta, u) ==
        TokenWrites(u, base) + FloatWrites(Cost, u.cost, CostAttributes(u, base))
        + FloatWrites(VideoSeconds, u.videoSeconds, base) + IntWrites(VideoFrames, u.videoFrames, base)
  {
    hide With, CostAttributes, Given;
  }

  function Component(m: Measurement<int>): int { if m.present then m.value else 0 }

  function ComponentSum(u: Usage): int { Component(u.cacheRead) + Component(u.cacheWrite) + Component(u.reasoning) }

  lemma OnlyComponentsAdd(u: Usage, i: Instrument)
    requires ValidUsage(u) && Int64Usage(u)
    ensures i == TokenComponent ==> TallyItems(UsageItems(u), i).integer == ComponentSum(u)
    ensures i != TokenComponent ==> TallyItems(UsageItems(u), i).integer <= MAX_INT64
  {
    hide TallyItems;
    var all := [IntItem(InputTokens, u.inputTokens), IntItem(OutputTokens, u.outputTokens),
                IntItem(TokenComponent, u.cacheRead), IntItem(TokenComponent, u.cacheWrite),
                IntItem(TokenComponent, u.reasoning), FloatItem(Cost, u.cost),
                FloatItem(VideoSeconds, u.videoSeconds), IntItem(VideoFrames, u.videoFrames)];
    assert all == UsageItems(u);
    EightItems(all, i);
  }

  lemma ItemsExact(u: Usage)
    requires ValidUsage(u) && Int64Usage(u)
    ensures Exact(UsageItems(u))
  {
  }

  lemma EightItems(items: seq<Item>, i: Instrument)
    requires |items| == 8
    ensures TallyItems(items, i).integer ==
      TallyItem(items[0], i).integer + TallyItem(items[1], i).integer + TallyItem(items[2], i).integer
      + TallyItem(items[3], i).integer + TallyItem(items[4], i).integer + TallyItem(items[5], i).integer
      + TallyItem(items[6], i).integer + TallyItem(items[7], i).integer
  {
    hide TallyItem, TallyItems;
    FirstItems(items, 7, i);
    FirstItems(items, 6, i);
    FirstItems(items, 5, i);
    FirstItems(items, 4, i);
    FirstItems(items, 3, i);
    FirstItems(items, 2, i);
    FirstItems(items, 1, i);
    FirstItems(items, 0, i);
    assert items[..8] == items && items[..0] == [];
    NoItems(i);
  }

  lemma NoItems(i: Instrument)
    ensures TallyItems([], i) == NOTHING
  {
  }

  lemma FirstItems(items: seq<Item>, n: nat, i: Instrument)
    requires n < |items|
    ensures TallyItems(items[..n + 1], i) == Plus(TallyItems(items[..n], i), TallyItem(items[n], i))
  {
    assert items[..n + 1][..n] == items[..n];
  }

  /** The recorder satisfies its own auditor. For a valid usage of a named operation the auditor
      accepts exactly the evidence that repeats, for each usage instrument, the number and the
      total of the recorder's writes, and it refuses even that when the token components
      together leave int64. */
  lemma AuditorAcceptsRecorder(labels: Labels, meta: Meta, u: Usage, expected: Tallies)
    requires ValidUsage(u) && Int64Usage(u) && labels(OperationName, meta.operation) != ""
    ensures Matches(u, expected) <==>
              (ComponentSum(u) <= MAX_INT64 &&
               forall k :: 0 <= k < |AUDITED| ==>
                 Get(expected, AUDITED[k]) == Witness(UsageWrites(labels, meta, u), AUDITED[k]))
  {
    hide Witness, TallyItems, UsageWrites, UsageItems, Required, ValidUsage, Exact, ComponentSum, Agrees, WantedTally,
         WantedOf, Int64Usage, Get;
    var items := UsageItems(u);
    forall i: Instrument
      ensures Witness(UsageWrites(labels, meta, u), i) == TallyItems(items, i)
      ensures i == TokenComponent ==> TallyItems(items, i).integer == ComponentSum(u)
      ensures i != TokenComponent ==> TallyItems(items, i).integer <= MAX_INT64
    {
      UsageWitness(labels, meta, u, i);
      OnlyComponentsAdd(u, i);
    }
    ItemsExact(u);
    RequiredIsTally(items);
    assert TallyItems(items, TokenComponent).integer == ComponentSum(u);
    assert Required(items).Some? <==> ComponentSum(u) <= MAX_INT64;
    forall k | 0 <= k < |AUDITED|
      ensures Required(items).Some? ==>
                (Agrees(WantedOf(Required(items).value, AUDITED[k]), Get(expected, AUDITED[k]))
                 <==> Get(expected, AUDITED[k]) == Witness(UsageWrites(labels, meta, u), AUDITED[k]))
    {
      AgreesTally(TallyItems(items, AUDITED[k]), Get(expected, AUDITED[k]));
    }
  }

  lemma AgreesTally(t: Tally, got: Tally)
    ensures Agrees(WantedTally(t), got) <==> got == t
  {
  }

  // ----- the audit of one boundary

  datatype Evidence = Evidence(expectedSpans: int, actualSpans: int,
    expected: seq<AccountingMeasurement>, actual: seq<AccountingMeasurement>)

  /** Expectation and observation must be the same map; a boundary without accounting must be silent. */
  ghost predicate Passes(accounting: bool, u: Usage, series: seq<int>, e: Evidence)
  {
    && 0 <= e.expectedSpans <= MAX_ITEMS && e.actualSpans == e.expectedSpans
    && |e.expected| <= MAX_ITEMS && |e.actual| <= MAX_ITEMS
    && Coherent(e.expected) && Coherent(e.actual) && MapOf(e.expected) == MapOf(e.actual)
    && if accounting then Matches(u, MapOf(e.expected))
       else Silent(MapOf(e.expected)) && forall i :: 0 <= i < |series| ==> series[i] == 0
  }

  predicate Silent(m: Tallies) { forall i :: i in m ==> m[i] == NOTHING }

  method ValidAccounting(accounting: bool, u: Usage, series: seq<int>, evidence: Option<Evidence>) returns (ok: bool)
    ensures ok <==> evidence.Some? && Passes(accounting, u, series, evidence.value)
  {
    hide Coherent, Matches, MapOf;
    if evidence == None {
      return false;
    }
    var e := evidence.value;
    if e.expectedSpans < 0 || e.expectedSpans > MAX_ITEMS || e.actualSpans != e.expectedSpans
       || |e.expected| > MAX_ITEMS || |e.actual| > MAX_ITEMS {
      return false;
    }
    var expected := AccountingMap(e.expected);
    var actual := AccountingMap(e.actual);
    if expected == None || actual == None || |expected.value| != |actual.value| {
      return false;
    }
    var wanted, got := expected.value, actual.value;
    var rest := wanted.Keys;
    while rest != {}
      invariant rest <= wanted.Keys
      invariant forall i :: i in wanted && i !in rest ==> i in got && got[i] == wanted[i]
      invariant !accounting ==> forall i :: i in wanted && i !in rest ==> wanted[i] == NOTHING
    {
      var i :| i in rest;
      if i !in got || got[i] != wanted[i] {
        return false;
      }
      if !accounting && got[i] != NOTHING {
        return false;
      }
      rest := rest - {i};
    }
    SameKeys(wanted, got);
    if !accounting {
      var k := 0;
      while k < |series|
        invariant 0 <= k <= |series|
        invariant forall j :: 0 <= j < k ==> series[j] == 0
      {
        if series[k] != 0 {
          return false;
        }
        k := k + 1;
      }
      return true;
    }
    ok := UsageAccountingMatches(u, wanted);
  }

  /** Maps of one size that agree on the keys of the first are equal. */
  lemma SameKeys(a: Tallies, b: Tallies)
    requires |a| == |b| && forall i :: i in a ==> i in b && b[i] == a[i]
    ensures a == b
  {
    assert a.Keys <= b.Keys && |a.Keys| == |b.Keys|;
    assert b.Keys == a.Keys + (b.Keys - a.Keys);
  }

  lemma IntervalsAreNotAudited(labels: Labels, meta: Meta, i: Instrument)
    requires i in AUDITED
    ensures Witness(DurationWrites(labels, meta), i) == NOTHING
  {
    hide BaseAttributes, MetricMeta, With, Given;
    var ws := DurationWrites(labels, meta);
    NoWrites(i);
    if ws != [] {
      OneWrite(ws[0], i);
      assert ws == [ws[0]];
    }
  }

  lemma PurposeIsNoAmount(meta: Meta, u: Usage)
    requires ValidUsage(WithPurpose(meta, u))
    ensures UsageItems(WithPurpose(meta, u)) == UsageItems(u) && ComponentSum(WithPurpose(meta, u)) == ComponentSum(u)
    ensures Int64Usage(WithPurpose(meta, u)) == Int64Usage(u)
  {
  }

  /** Whole audit: when host and exporter both report, for the usage instruments, what the
      recording of one named operation exported, the boundary passes exactly when the token
      components together fit int64. */
  lemma RecordingPassesAudit(s: State, labels: Labels, meta: Meta, u: Usage, series: seq<int>, e: Evidence)
    requires ValidRecording(s.allowed, Interaction(meta, u)) && Int64Usage(u)
      && labels(OperationName, meta.operation) != ""
    requires 0 <= e.expectedSpans <= MAX_ITEMS && e.actualSpans == e.expectedSpans
    requires |e.expected| <= MAX_ITEMS && Coherent(e.expected) && e.actual == e.expected
    requires forall k :: 0 <= k < |AUDITED| ==>
               (Get(MapOf(e.expected), AUDITED[k])
                == Witness(RunOutput(s, Writes(labels, s.allowed, Interaction(meta, u))), AUDITED[k]))
    ensures Passes(true, u, series, e) <==> ComponentSum(u) <= MAX_INT64
  {
    hide Witness, UsageWrites, DurationWrites, MapOf, Coherent, ComponentSum, ValidUsage, WithPurpose, RunOutput,
         Matches, Required, UsageItems, Int64Usage;
    var full := WithPurpose(meta, u);
    var a, b := UsageWrites(labels, meta, full), DurationWrites(labels, meta);
    PurposeIsNoAmount(meta, u);
    AuditorAcceptsRecorder(labels, meta, full, MapOf(e.expected));
    SameItems(u, full, MapOf(e.expected));
    forall k | 0 <= k < |AUDITED|
      ensures Get(MapOf(e.expected), AUDITED[k]) == Witness(a, AUDITED[k])
    {
      ExportKeepsWitness(s, a + b, AUDITED[k]);
      WitnessConcat(a, b, AUDITED[k]);
      IntervalsAreNotAudited(labels, meta, AUDITED[k]);
      PlusAssoc(Witness(a, AUDITED[k]), NOTHING, NOTHING);
    }
  }

  lemma SameItems(u: Usage, v: Usage, expected: Tallies)
    requires UsageItems(u) == UsageItems(v)
    ensures Matches(u, expected) == Matches(v, expected)
  {
    hide UsageItems;
  }

  /** The exception is real: a valid usage whose recording the auditor refuses. */
  lemma OverflowingComponentsAreRefused(expected: Tallies)
    ensures var all := Measurement(MAX_INT64, true, MEASURED, "token");
      var u := NO_USAGE.(cacheRead := all, cacheWrite := all);
      ValidUsage(u) && Int64Usage(u) && !Matches(u, expected)
  {
    hide Required, UsageItems;
    var all := Measurement(MAX_INT64, true, MEASURED, "token");
    var u := NO_USAGE.(cacheRead := all, cacheWrite := all);
    var meta := Meta("", "", "chat", "", "", "", "", 0, 0, "", false, "");
    AuditorAcceptsRecorder((k, text) => text, meta, u, expected);
  }
}
