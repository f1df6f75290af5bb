/** Local enrichment of a context (enrich.go). */
module Enrichment {
  import opened Bytes
  import opened Decimals
  import opened Baggage
  import opened Ledger
  import opened Propagation
  import opened Transport

  /** A typed attribute; a float is held by its spelling. */
  datatype Attribute =
    | TextAttribute(key: Bytes, text: Bytes)
    | IntAttribute(key: Bytes, n: int)
    | BoolAttribute(key: Bytes, b: bool)
    | FloatAttribute(key: Bytes, spelling: Bytes)

  function TextOf(a: Attribute): Bytes
  {
    match a
    case TextAttribute(_, text) => text
    case IntAttribute(_, n) => FormatInt(n)
    case BoolAttribute(_, b) => if b then "true" else "false"
    case FloatAttribute(_, spelling) => spelling
  }

  function TypeOf(a: Attribute): Bytes
  {
    match a
    case TextAttribute(_, _) => "string"
    case IntAttribute(_, _) => "int"
    case BoolAttribute(_, _) => "bool"
    case FloatAttribute(_, _) => "float"
  }

  predicate ValidAttribute(sdk: Sdk, a: Attribute)
  {
    a.key != "" && !(a.TextAttribute? && a.text == "") && sdk.key(a.key) && sdk.raw(a.key, TextOf(a))
  }

  function LocalEntry(a: Attribute): Entry { Entry(a.key, TextOf(a), TypeOf(a), true) }

  /** The ledger values of the attributes that are valid. */
  function LocalValues(sdk: Sdk, attrs: seq<Attribute>): seq<Entry>
  {
    if attrs == [] then []
    else
      var a := attrs[|attrs| - 1];
      LocalValues(sdk, attrs[..|attrs| - 1]) + if ValidAttribute(sdk, a) then [LocalEntry(a)] else []
  }

  method CollectValues(sdk: Sdk, attrs: seq<Attribute>) returns (values: seq<Entry>)
    ensures values == LocalValues(sdk, attrs)
  {
    values := [];
    var i := 0;
    while i < |attrs|
      invariant 0 <= i <= |attrs| && values == LocalValues(sdk, attrs[..i])
    {
      assert attrs[..i + 1][..i] == attrs[..i];
      if ValidAttribute(sdk, attrs[i]) {
        values := values + [LocalEntry(attrs[i])];
      }
      i := i + 1;
    }
    assert attrs[..i] == attrs;
  }

  /** Baggage of a context whose trusted values are these: foreign members stay, trusted ones win. */
  function Merged(sdk: Sdk, bag: Bag, ledger: seq<Entry>): Bag
  {
    bag + LastWins(MembersOf(sdk, ledger, Everything()))
  }

  /** The transport baggage is rebuilt from the whole ledger, never only from the new values. */
  method Enrich(sdk: Sdk, ctx: Context, attrs: seq<Attribute>) returns (r: Context)
    requires Keyed(ctx.bag)
    ensures LocalValues(sdk, attrs) == [] ==> r == ctx
    ensures LocalValues(sdk, attrs) != [] ==>
              && r.trace == ctx.trace && r.ledger == PutAll(ctx.ledger, LocalValues(sdk, attrs))
              && r.bag == Built(Merged(sdk, ctx.bag, r.ledger), sdk.wire).0
  {
    if |attrs| == 0 {
      return ctx;
    }
    var values := CollectValues(sdk, attrs);
    if |values| == 0 {
      return ctx;
    }
    var ledger := PutAll(ctx.ledger, values);
    var members := Members(ctx.bag);
    var trusted := CollectMembers(sdk, ledger, Everything());
    MergedIsLastWins(ctx.bag, members, trusted);
    var bag, dropped := Build(members + trusted, sdk.wire, PinnedSdk(sdk.wire));
    return Context(ledger, bag, ctx.trace);
  }

  lemma {:induction false} LastWinsConcat(a: seq<Member>, b: seq<Member>)
    ensures LastWins(a + b) == LastWins(a) + LastWins(b)
  {
    if b == [] {
      AddEmpty(a);
    } else {
      LastWinsConcat(a, b[..|b| - 1]);
      assert (a + b)[..|a + b| - 1] == a + b[..|b| - 1];
    }
  }

  lemma MergedIsLastWins(bag: Bag, order: seq<Member>, trusted: seq<Member>)
    requires Keyed(bag) && IterationOf(order, bag)
    ensures LastWins(order + trusted) == bag + LastWins(trusted)
  {
    hide LastWins, DistinctMembers;
    LastWinsConcat(order, trusted);
    BagOfMembers(order, bag);
  }

  lemma {:induction false} ValuesAreLocal(sdk: Sdk, attrs: seq<Attribute>)
    ensures Proper(Enriched(LocalValues(sdk, attrs)))
  {
    hide ValidAttribute, TextOf, TypeOf;
    if attrs != [] {
      ValuesAreLocal(sdk, attrs[..|attrs| - 1]);
    }
  }

  /** Integers and booleans set here are valid scalars wherever they arrive. */
  lemma LocalScalarsAreValid(sdk: Sdk, a: Attribute)
    requires a.IntAttribute? ==> Int64(a.n)
    requires a.FloatAttribute? ==> sdk.finite(a.spelling)
    ensures ValidScalar(sdk.finite, LocalEntry(a).(local := false))
  {
    if a.IntAttribute? {
      ParseFormat(a.n);
    }
  }

  /** What may be set: a key the SDK knows, a text it accepts, and no empty string. */
  predicate Settable(sdk: Sdk, a: Attribute)
  {
    && a.key != "" && sdk.key(a.key)
    && match a
       case TextAttribute(key, text) => text != "" && sdk.raw(key, text)
       case IntAttribute(key, n) => sdk.raw(key, FormatInt(n))
       case BoolAttribute(key, b) => sdk.raw(key, if b then "true" else "false")
       case FloatAttribute(key, spelling) => sdk.raw(key, spelling)
  }

  /** The value an attribute sets: its text under its type, local. */
  function Setting(a: Attribute): Entry
  {
    match a
    case TextAttribute(key, text) => Entry(key, text, "string", true)
    case IntAttribute(key, n) => Entry(key, FormatInt(n), "int", true)
    case BoolAttribute(key, b) => Entry(key, if b then "true" else "false", "bool", true)
    case FloatAttribute(key, spelling) => Entry(key, spelling, "float", true)
  }

  /** The last settable attribute of a key. */
  function LastSettable(sdk: Sdk, attrs: seq<Attribute>, key: Bytes): Option<Attribute>
  {
    if attrs == [] then None
    else
      var a := attrs[|attrs| - 1];
      if a.key == key && Settable(sdk, a) then Some(a) else LastSettable(sdk, attrs[..|attrs| - 1], key)
  }

  lemma SettingIsLocal(sdk: Sdk, a: Attribute)
    ensures ValidAttribute(sdk, a) <==> Settable(sdk, a)
    ensures LocalEntry(a) == Setting(a) && Setting(a).local && Setting(a).key == a.key
  {
    hide FormatInt;
  }

  lemma {:induction false} LastLocalValue(sdk: Sdk, attrs: seq<Attribute>, key: Bytes)
    ensures Last(LocalValues(sdk, attrs), key, true) ==
              if LastSettable(sdk, attrs, key).Some? then Some(Setting(LastSettable(sdk, attrs, key).value)) else None
    ensures Last(LocalValues(sdk, attrs), key, false) == Last(LocalValues(sdk, attrs), key, true)
  {
    hide ValidAttribute, Settable, LocalEntry, Setting;
    if attrs != [] {
      var init, a := attrs[..|attrs| - 1], attrs[|attrs| - 1];
      LastLocalValue(sdk, init, key);
      SettingIsLocal(sdk, a);
      var vs := LocalValues(sdk, init);
      AddEmpty(vs);
      assert (vs + [LocalEntry(a)])[..|vs|] == vs;
    }
  }

  /** After an enrichment a key holds the last settable attribute of that key, else what it held. */
  lemma ValuesAreSet(sdk: Sdk, attrs: seq<Attribute>, ledger: seq<Entry>, key: Bytes)
    ensures Lookup(PutAll(ledger, LocalValues(sdk, attrs)), key) ==
              if LastSettable(sdk, attrs, key).Some? then Some(Setting(LastSettable(sdk, attrs, key).value))
              else Lookup(ledger, key)
  {
    hide Lookup, PutAll, LocalValues, Last, Setting;
    PutLookup(ledger, LocalValues(sdk, attrs), key);
    LastLocalValue(sdk, attrs, key);
  }

  /** The baggage after an enrichment: the retained ones of the foreign members and of all the
      ledger's members, which win over them. */
  lemma EnrichedBaggage(sdk: Sdk, bag: Bag, ledger: seq<Entry>, key: Bytes)
    requires Keyed(bag) && Unique(ledger)
    ensures var members := bag + Spelled(sdk, ledger);
      var built := Built(Merged(sdk, bag, ledger), sdk.wire).0;
      && (key in built <==> Retained(sdk, members, key))
      && (key in built ==> built[key] == members[key])
  {
    hide LastWins, MembersOf, Built, Spelled, Retained;
    SpelledMembers(sdk, ledger, Everything());
    assert LastWins(MembersOf(sdk, ledger, Everything())) == Spelled(sdk, ledger);
    BuiltExactly(sdk, bag + Spelled(sdk, ledger), key);
  }

  /** A trusted value that an earlier overflow left out of the baggage returns exactly when the
      candidates up to it fit: its presence depends on the ledger and the foreign members alone. */
  lemma OmittedValueReturns(sdk: Sdk, bag: Bag, ledger: seq<Entry>, key: Bytes)
    requires Keyed(bag) && Unique(ledger) && Lookup(ledger, key).Some?
    requires MemberOf(sdk, Lookup(ledger, key).value).Some?
      && sdk.wire(MemberOf(sdk, Lookup(ledger, key).value).value) != []
    ensures var merged := Merged(sdk, bag, ledger);
      var built := Built(merged, sdk.wire).0;
      && (key in built <==> Fits(UpTo(Candidates(merged, sdk.wire), key), sdk.wire))
      && (key in built ==> built[key] == MemberOf(sdk, Lookup(ledger, key).value).value)
  {
    hide LastWins, MembersOf, MemberOf, Fits, UpTo, Candidates, Built, Lookup;
    var merged := Merged(sdk, bag, ledger);
    LedgerBag(sdk, ledger, Everything());
    MemberKey(sdk, Lookup(ledger, key).value);
    assert Keyed(merged);
    RetainedExactly(merged, sdk.wire, key);
  }
}
