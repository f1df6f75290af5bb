/** What survives the transport of trusted values, and what every run of enrichments and
    extractions keeps. */
module Transport {
  import opened Bytes
  import opened Decimals
  import opened Baggage
  import opened Ledger
  import opened Propagation

  // ----- ledgers as members

  lemma LookupFound(ledger: seq<Entry>, key: Bytes)
    ensures Lookup(ledger, key).Some? ==> Lookup(ledger, key).value.key == key && Lookup(ledger, key).value in ledger
  {
  }

  lemma LookupIn(ledger: seq<Entry>, v: Entry)
    requires Unique(ledger) && v in ledger
    ensures Lookup(ledger, v.key) == Some(v)
  {
    var i :| 0 <= i < |ledger| && ledger[i] == v;
    FindAt(ledger, i);
  }

  /** One member for each passing value that has one. */
  ghost predicate Represents(sdk: Sdk, ledger: seq<Entry>, pass: Bytes -> bool, ms: seq<Member>)
  {
    && (forall m :: m in ms ==> exists v :: v in ledger && v.key == m.key && pass(v.key) && MemberOf(sdk, v) == Some(m))
    && (forall v :: v in ledger && pass(v.key) && MemberOf(sdk, v).Some? ==> MemberOf(sdk, v).value in ms)
  }

  lemma {:induction false} MembersRepresent(sdk: Sdk, ledger: seq<Entry>, pass: Bytes -> bool)
    requires Unique(ledger)
    ensures Represents(sdk, ledger, pass, MembersOf(sdk, ledger, pass)) && DistinctMembers(MembersOf(sdk, ledger, pass))
  {
    hide Represents, DistinctMembers, MemberOf;
    if ledger == [] {
      NoneRepresent(sdk, pass);
    } else {
      var init, last := ledger[..|ledger| - 1], ledger[|ledger| - 1];
      MembersRepresent(sdk, init, pass);
      RepresentSnoc(sdk, ledger, pass, MembersOf(sdk, init, pass));
    }
  }

  lemma NoneRepresent(sdk: Sdk, pass: Bytes -> bool)
    ensures Represents(sdk, [], pass, []) && DistinctMembers([])
  {
  }

  /** The members so far, and the one of the last value if it has one. */
  lemma RepresentSnoc(sdk: Sdk, ledger: seq<Entry>, pass: Bytes -> bool, ms: seq<Member>)
    requires ledger != [] && Unique(ledger)
    requires Represents(sdk, ledger[..|ledger| - 1], pass, ms) && DistinctMembers(ms)
    ensures var last := ledger[|ledger| - 1];
      var r := ms + if pass(last.key) && MemberOf(sdk, last).Some? then [MemberOf(sdk, last).value] else [];
      Represents(sdk, ledger, pass, r) && DistinctMembers(r)
  {
    hide Unique;
    var init, last := ledger[..|ledger| - 1], ledger[|ledger| - 1];
    assert ledger == init + [last];
    forall m | m in ms
      ensures m.key != last.key
    {
      var v :| v in init && v.key == m.key && pass(v.key) && MemberOf(sdk, v) == Some(m);
      LastIsNew(ledger, v);
    }
  }

  lemma LastIsNew(ledger: seq<Entry>, v: Entry)
    requires ledger != [] && Unique(ledger) && v in ledger[..|ledger| - 1]
    ensures v.key != ledger[|ledger| - 1].key
  {
    var i :| 0 <= i < |ledger| - 1 && ledger[..|ledger| - 1][i] == v;
    assert ledger[i].key != ledger[|ledger| - 1].key;
  }

  /** The last-wins map of a ledger's members, key by key. */
  lemma LedgerBag(sdk: Sdk, ledger: seq<Entry>, pass: Bytes -> bool)
    requires Unique(ledger)
    ensures var bag := LastWins(MembersOf(sdk, ledger, pass));
      && Keyed(bag)
      && (forall k :: k in bag ==>
        Lookup(ledger, k).Some? && pass(k) && MemberOf(sdk, Lookup(ledger, k).value) == Some(bag[k]))
      && (forall k :: Lookup(ledger, k).Some? && pass(k) && MemberOf(sdk, Lookup(ledger, k).value).Some? ==> k in bag)
  {
    hide LastWins, MembersOf, Lookup, MemberOf, Unique, DistinctMembers;
    var ms := MembersOf(sdk, ledger, pass);
    MembersRepresent(sdk, ledger, pass);
    DistinctBag(ms);
    var bag := LastWins(ms);
    forall k | k in bag
      ensures Lookup(ledger, k).Some? && pass(k) && MemberOf(sdk, Lookup(ledger, k).value) == Some(bag[k])
    {
      assert bag[k] in ms;
      var v :| v in ledger && v.key == bag[k].key && pass(v.key) && MemberOf(sdk, v) == Some(bag[k]);
      LookupIn(ledger, v);
    }
    forall k | Lookup(ledger, k).Some? && pass(k) && MemberOf(sdk, Lookup(ledger, k).value).Some?
      ensures k in bag
    {
      LookupFound(ledger, k);
      MemberKey(sdk, Lookup(ledger, k).value);
    }
  }

  lemma MemberKey(sdk: Sdk, v: Entry)
    ensures MemberOf(sdk, v).Some? ==> MemberOf(sdk, v).value.key == v.key
  {
  }

  /** What leaves the process: allowlisted trusted values, each as its own member. */
  lemma OutgoingIsTrusted(sdk: Sdk, p: Policy, ledger: seq<Entry>)
    requires Unique(ledger)
    ensures forall k :: k in Outgoing(sdk, p, ledger) ==>
              && Lookup(ledger, k).Some? && k in p.egress
              && MemberOf(sdk, Lookup(ledger, k).value) == Some(Outgoing(sdk, p, ledger)[k])
  {
    hide LastWins, MembersOf, Lookup, MemberOf, Built;
    LedgerBag(sdk, ledger, Egress(p));
    BuiltWithin(LastWins(MembersOf(sdk, ledger, Egress(p))), sdk.wire);
  }

  /** The members that the values of a ledger have, told value by value: the SDK accepts the type
      as a property and the text as a value. */
  ghost function Spelled(sdk: Sdk, ledger: seq<Entry>): Bag
  {
    map v | v in ledger && Lookup(ledger, v.key) == Some(v) && sdk.property(v.typeName) && sdk.raw(v.key, v.text) ::
      v.key := Member(v.key, v.text, [Property("metry.attr.type", v.typeName)])
  }

  /** The members that a policy lets out. */
  ghost function Sendable(sdk: Sdk, p: Policy, ledger: seq<Entry>): Bag
  {
    map k | k in Spelled(sdk, ledger) && k in p.egress :: Spelled(sdk, ledger)[k]
  }

  /** The member of a key is among those that fit, in key order, into the transport baggage. */
  ghost predicate Retained(sdk: Sdk, members: Bag, key: Bytes)
  {
    && key in members && sdk.wire(members[key]) != []
    && var upTo := UpTo(Candidates(members, sdk.wire), key);
       |upTo| <= 64 && Size(upTo, sdk.wire) <= 8192
  }

  lemma SpelledAt(sdk: Sdk, ledger: seq<Entry>, k: Bytes)
    ensures k in Spelled(sdk, ledger) <==> Lookup(ledger, k).Some? && MemberOf(sdk, Lookup(ledger, k).value).Some?
    ensures k in Spelled(sdk, ledger) ==> MemberOf(sdk, Lookup(ledger, k).value) == Some(Spelled(sdk, ledger)[k])
  {
    hide Ledger.Find;
    LookupFound(ledger, k);
  }

  lemma SpelledMembers(sdk: Sdk, ledger: seq<Entry>, pass: Bytes -> bool)
    requires Unique(ledger)
    ensures LastWins(MembersOf(sdk, ledger, pass)) ==
              map k | k in Spelled(sdk, ledger) && pass(k) :: Spelled(sdk, ledger)[k]
    ensures Keyed(Spelled(sdk, ledger))
  {
    hide LastWins, MembersOf, MemberOf, Lookup, Unique;
    LedgerBag(sdk, ledger, pass);
    var bag, told := LastWins(MembersOf(sdk, ledger, pass)), Spelled(sdk, ledger);
    forall k
      ensures k in bag <==> k in told && pass(k)
      ensures k in bag ==> bag[k] == told[k]
      ensures k in told ==> told[k].key == k
    {
      SpelledAt(sdk, ledger, k);
    }
  }

  /** A member of the built baggage is one of these, and exactly when it is retained. */
  lemma BuiltExactly(sdk: Sdk, members: Bag, key: Bytes)
    requires Keyed(members)
    ensures var bag := Built(members, sdk.wire).0;
      && (key in bag <==> Retained(sdk, members, key)) && (key in bag ==> bag[key] == members[key])
  {
    hide Built, Size, UpTo, Candidates;
    BuiltWithin(members, sdk.wire);
    BuiltEncodes(members, sdk.wire);
    if key in members && sdk.wire(members[key]) != [] {
      RetainedExactly(members, sdk.wire, key);
    }
  }

  lemma BuiltEncodes(members: Bag, wire: Wire)
    requires Keyed(members)
    ensures forall k :: k in Built(members, wire).0 ==> k in members && wire(members[k]) != []
  {
    hide Fitting, Built, Candidates, Fits, InKeyOrder;
    BuiltWithin(members, wire);
    RetainedMembers(members, wire);
  }

  /** Whatever leaves the process: a key is sent exactly when the ledger holds it, the policy lets it
      out, the SDK accepts its type and text, and the sendable members up to it fit. */
  lemma SentExactly(sdk: Sdk, p: Policy, ledger: seq<Entry>, key: Bytes)
    requires Unique(ledger)
    ensures var out := Outgoing(sdk, p, ledger);
      && (key in out <==> Retained(sdk, Sendable(sdk, p, ledger), key))
      && (key in out ==> out[key] == Spelled(sdk, ledger)[key])
  {
    hide LastWins, MembersOf, Built, Spelled, Retained;
    SpelledMembers(sdk, ledger, Egress(p));
    assert LastWins(MembersOf(sdk, ledger, Egress(p))) == Sendable(sdk, p, ledger);
    BuiltExactly(sdk, Sendable(sdk, p, ledger), key);
  }

  // ----- the receiving side

  function EntryOf(m: Member): Entry { Entry(m.key, m.value, KindOf(m.properties), false) }

  lemma {:induction false} LastImported(sdk: Sdk, p: Policy, order: seq<Member>, key: Bytes)
    requires DistinctMembers(order)
    ensures Last(Imported(sdk, p, order), key, true) == None
    ensures (forall m :: m in order ==> m.key != key) ==> Last(Imported(sdk, p, order), key, false) == None
    ensures forall m :: m in order && m.key == key ==>
              Last(Imported(sdk, p, order), key, false) == if Importable(sdk, p, m) then Some(EntryOf(m)) else None
  {
    hide Importable, KindOf, Last;
    if order == [] {
      NothingLast(key);
    } else {
      var init, last := order[..|order| - 1], order[|order| - 1];
      assert order == init + [last];
      LastImported(sdk, p, init, key);
      LastSnoc(Imported(sdk, p, init), EntryOf(last), key);
      AddEmpty(Imported(sdk, p, init));
      forall m | m in init
        ensures m.key != last.key
      {
        var i :| 0 <= i < |init| && init[i] == m;
        assert order[i].key != order[|order| - 1].key;
      }
    }
  }

  lemma NothingLast(key: Bytes)
    ensures Last([], key, true) == None && Last([], key, false) == None
  {
  }

  lemma LastSnoc(vs: seq<Entry>, v: Entry, key: Bytes)
    requires !v.local
    ensures Last(vs + [v], key, true) == Last(vs, key, true)
    ensures Last(vs + [v], key, false) == if v.key == key then Some(v) else Last(vs, key, false)
  {
    assert (vs + [v])[..|vs|] == vs;
  }

  /** An empty ledger learns exactly the importable members, in whatever order they come. */
  lemma ImportedLookup(sdk: Sdk, p: Policy, bag: Bag, order: seq<Member>, key: Bytes)
    requires Keyed(bag) && IterationOf(order, bag)
    ensures Lookup(PutAll([], Imported(sdk, p, order)), key) ==
              if key in bag && Importable(sdk, p, bag[key]) then Some(EntryOf(bag[key])) else None
    ensures Unique(PutAll([], Imported(sdk, p, order)))
  {
    hide Importable, KindOf, Imported, PutAll, Last, DistinctMembers;
    PutLookup([], Imported(sdk, p, order), key);
    PutUnique([], Imported(sdk, p, order));
    LastImported(sdk, p, order, key);
    if key in bag {
      assert bag[key] in order && bag[key].key == key;
    }
  }

  /** What a policy admits of a carrier: an allowlisted, unreserved key and a text of the type it
      declares. */
  predicate Admissible(sdk: Sdk, p: Policy, m: Member)
  {
    && m.key in p.ingress && m.key !in p.reserved
    && m.key !in {"msg", "time", "level", "source", "trace_id", "span_id"}
    && match KindOf(m.properties)
       case "string" => true
       case "int" => ParseInt(m.value).Some?
       case "bool" => m.value in BOOLS
       case "float" => sdk.finite(m.value)
       case _ => false
  }

  /** The type a member declares is that of its first type property; one without any is a string. */
  lemma {:induction false} DeclaredType(properties: seq<Property>, n: nat)
    requires n <= |properties| && forall i :: 0 <= i < n ==> properties[i].key != "metry.attr.type"
    ensures n == |properties| ==> KindOf(properties) == "string"
    ensures n < |properties| && properties[n].key == "metry.attr.type" ==> KindOf(properties) == properties[n].value
  {
    if n > 0 {
      DeclaredType(properties[1..], n - 1);
    }
  }

  lemma ImportableIsAdmissible(sdk: Sdk, p: Policy, m: Member)
    ensures Importable(sdk, p, m) <==> Admissible(sdk, p, m)
  {
    hide KindOf, ParseInt, BOOLS;
  }

  /** After an extraction into any context a key holds its own local value, else what the carrier
      brought if the policy admits it, else what was held. */
  lemma ExtractedExactly(sdk: Sdk, p: Policy, ledger: seq<Entry>, bag: Bag, order: seq<Member>, key: Bytes)
    requires Keyed(bag) && IterationOf(order, bag)
    ensures var held := Lookup(ledger, key);
      Lookup(PutAll(ledger, Imported(sdk, p, order)), key) ==
        if held.Some? && held.value.local then held
        else if key in bag && Admissible(sdk, p, bag[key])
        then Some(Entry(key, bag[key].value, KindOf(bag[key].properties), false)) else held
  {
    hide Importable, Admissible, KindOf, Imported, PutAll, Last, Lookup, DistinctMembers;
    PutLookup(ledger, Imported(sdk, p, order), key);
    LastImported(sdk, p, order, key);
    if key in bag {
      assert bag[key] in order && bag[key].key == key;
      ImportableIsAdmissible(sdk, p, bag[key]);
    }
  }

  /** The baggage of a context that was extracted: the retained ones of all its ledger's members. */
  lemma TrustedBaggage(sdk: Sdk, ledger: seq<Entry>, key: Bytes)
    requires Unique(ledger)
    ensures var bag := Built(LastWins(MembersOf(sdk, ledger, Everything())), sdk.wire).0;
      && (key in bag <==> Retained(sdk, Spelled(sdk, ledger), key))
      && (key in bag ==> bag[key] == Spelled(sdk, ledger)[key])
  {
    hide LastWins, MembersOf, Built, Spelled, Retained;
    SpelledMembers(sdk, ledger, Everything());
    assert LastWins(MembersOf(sdk, ledger, Everything())) == Spelled(sdk, ledger);
    BuiltExactly(sdk, Spelled(sdk, ledger), key);
  }

  // ----- inject, then extract

  /** The base propagator carries every bag that fits without loss. */
  ghost predicate Lossless(sdk: Sdk, base: Propagator)
  {
    forall t, u, bag :: Keyed(bag) && Built(bag, sdk.wire) == (bag, 0) ==>
      base.extract(u, Declared(base.fields, base.inject(t, bag))).1 == bag
  }

  lemma DeclaredReplaced(fields: seq<Bytes>, before: map<Bytes, Bytes>, staged: map<Bytes, Bytes>)
    ensures Declared(fields, Replaced(fields, before, staged)) == Declared(fields, staged)
  {
  }

  /** What an injection leaves in a carrier: each declared field as the base wrote it or empty, and
      every other entry as it was. */
  lemma CarrierExactly(fields: seq<Bytes>, before: map<Bytes, Bytes>, staged: map<Bytes, Bytes>, k: Bytes)
    ensures var after := Replaced(fields, before, staged);
      && (k in after <==> k in before || k in fields)
      && (k in fields ==> after[k] == if k in staged then staged[k] else "")
      && (k in before && k !in fields ==> after[k] == before[k])
  {
  }

  lemma OutgoingFits(sdk: Sdk, p: Policy, ledger: seq<Entry>)
    ensures var out := Outgoing(sdk, p, ledger);
      Keyed(out) && Built(out, sdk.wire) == (out, 0)
  {
    hide LastWins, MembersOf, Candidates, Fitting;
    var unique := LastWins(MembersOf(sdk, ledger, Egress(p)));
    LastWinsIsKeyed(MembersOf(sdk, ledger, Egress(p)));
    BuiltWithin(unique, sdk.wire);
    RebuildDropsNothing(unique, Outgoing(sdk, p, ledger), sdk.wire);
  }

  /** A sent value as its receiver holds it. */
  function Received(sdk: Sdk, q: Policy, sent: Entry): Option<Entry>
  {
    var remote := sent.(local := false);
    if sent.key in q.ingress && sent.key !in RESERVED && sent.key !in q.reserved && ValidScalar(sdk.finite, remote)
    then Some(remote)
    else None
  }

  lemma MemberReceived(sdk: Sdk, q: Policy, v: Entry)
    requires MemberOf(sdk, v).Some?
    ensures var m := MemberOf(sdk, v).value;
      && EntryOf(m) == v.(local := false)
      && Received(sdk, q, v) == (if Importable(sdk, q, m) then Some(EntryOf(m)) else None)
      && MemberOf(sdk, v.(local := false)) == Some(m)
  {
    var m := MemberOf(sdk, v).value;
    assert m.properties == [Property(TYPE_KEY, v.typeName)];
    assert KindOf(m.properties) == v.typeName;
  }

  /** Injecting into any carrier and extracting into an empty context gives the receiver exactly
      the sender's values that the sender's policy lets out, that fit and that its own policy admits,
      with text and type unchanged and marked remote; rebuilding the receiver's baggage drops nothing
      further. */
  lemma InjectThenExtract(sdk: Sdk, p: Policy, q: Policy, base: Propagator, sender: Context,
      before: map<Bytes, Bytes>, order: seq<Member>, key: Bytes)
    requires Unique(sender.ledger) && Lossless(sdk, base)
    requires var out := Outgoing(sdk, p, sender.ledger);
      var values := Replaced(base.fields, before, base.inject(sender.trace, out));
      IterationOf(order, base.extract(None, Declared(base.fields, values)).1)
    ensures var sent := Retained(sdk, Sendable(sdk, p, sender.ledger), key);
      var ledger := PutAll([], Imported(sdk, q, order));
      && (sent ==> Lookup(sender.ledger, key).Some?)
      && Lookup(ledger, key) == (if sent then Received(sdk, q, Lookup(sender.ledger, key).value) else None)
      && var again := Built(LastWins(MembersOf(sdk, ledger, Everything())), sdk.wire);
         && again.1 == 0
         && (key in again.0 <==> Lookup(ledger, key).Some?)
         && (key in again.0 ==> key in Spelled(sdk, sender.ledger) && again.0[key] == Spelled(sdk, sender.ledger)[key])
  {
    hide Imported, MembersOf, LastWins, Built, PutAll, Lookup, Importable, Received, MemberOf, Outgoing, Unique,
         EntryOf, Retained, Spelled;
    var out := Outgoing(sdk, p, sender.ledger);
    SentExactly(sdk, p, sender.ledger, key);
    SpelledAt(sdk, sender.ledger, key);
    OutgoingFits(sdk, p, sender.ledger);
    OutgoingIsTrusted(sdk, p, sender.ledger);
    DeclaredReplaced(base.fields, before, base.inject(sender.trace, out));
    assert base.extract(None, Declared(base.fields, base.inject(sender.trace, out))).1 == out;
    var ledger := PutAll([], Imported(sdk, q, order));
    forall k
      ensures Lookup(ledger, k) == if k in out then Received(sdk, q, Lookup(sender.ledger, k).value) else None
      ensures k in out && Lookup(ledger, k).Some? ==> MemberOf(sdk, Lookup(ledger, k).value) == Some(out[k])
    {
      ImportedLookup(sdk, q, out, order, k);
      if k in out {
        MemberReceived(sdk, q, Lookup(sender.ledger, k).value);
        LookupFound(sender.ledger, k);
      }
    }
    ImportedLookup(sdk, q, out, order, key);
    Rebuilt(sdk, p, sender.ledger, ledger);
  }

  /** The receiver's baggage is the part of the sent baggage that was received. */
  lemma Rebuilt(sdk: Sdk, p: Policy, sent: seq<Entry>, ledger: seq<Entry>)
    requires Unique(ledger)
    requires forall k :: Lookup(ledger, k).Some? ==>
               k in Outgoing(sdk, p, sent) && MemberOf(sdk, Lookup(ledger, k).value) == Some(Outgoing(sdk, p, sent)[k])
    ensures var sub := LastWins(MembersOf(sdk, ledger, Everything()));
      && Built(sub, sdk.wire) == (sub, 0)
      && (forall k :: k in sub <==> Lookup(ledger, k).Some?)
      && (forall k :: k in sub ==> k in Outgoing(sdk, p, sent) && sub[k] == Outgoing(sdk, p, sent)[k])
  {
    hide MembersOf, LastWins, Built, Lookup, MemberOf;
    var sub := LastWins(MembersOf(sdk, ledger, Everything()));
    LedgerBag(sdk, ledger, Everything());
    var unique := LastWins(MembersOf(sdk, sent, Egress(p)));
    LastWinsIsKeyed(MembersOf(sdk, sent, Egress(p)));
    RebuildDropsNothing(unique, sub, sdk.wire);
  }

  // ----- runs

  /** What a context goes through: local enrichments, and extractions from any carrier in any order. */
  datatype Event = Enriched(values: seq<Entry>) | Extracted(order: seq<Member>)

  ghost predicate Proper(e: Event) { e.Enriched? ==> forall v :: v in e.values ==> v.local }

  function Incoming(sdk: Sdk, p: Policy, e: Event): seq<Entry>
  {
    match e
    case Enriched(values) => values
    case Extracted(order) => Imported(sdk, p, order)
  }

  function LedgerAfter(sdk: Sdk, p: Policy, ledger: seq<Entry>, events: seq<Event>): seq<Entry>
  {
    if events == [] then ledger
    else PutAll(LedgerAfter(sdk, p, ledger, events[..|events| - 1]), Incoming(sdk, p, events[|events| - 1]))
  }

  predicate Admitted(sdk: Sdk, p: Policy, v: Entry)
  {
    v.local || (v.key in p.ingress && v.key !in RESERVED && v.key !in p.reserved && ValidScalar(sdk.finite, v))
  }

  ghost predicate AllAdmitted(sdk: Sdk, p: Policy, vs: seq<Entry>) { forall v :: v in vs ==> Admitted(sdk, p, v) }

  lemma {:induction false} ImportedAdmitted(sdk: Sdk, p: Policy, order: seq<Member>)
    ensures AllAdmitted(sdk, p, Imported(sdk, p, order))
  {
    hide KindOf;
    if order != [] {
      ImportedAdmitted(sdk, p, order[..|order| - 1]);
    }
  }

  lemma {:induction false} PutAdmitted(sdk: Sdk, p: Policy, ledger: seq<Entry>, vs: seq<Entry>)
    requires AllAdmitted(sdk, p, ledger) && AllAdmitted(sdk, p, vs)
    ensures AllAdmitted(sdk, p, PutAll(ledger, vs))
  {
    hide Admitted;
    if vs != [] {
      assert vs == vs[..|vs| - 1] + [vs[|vs| - 1]];
      PutAdmitted(sdk, p, ledger, vs[..|vs| - 1]);
    }
  }

  /** Whatever carriers say: keys stay unique, and every remote value is allowlisted, unreserved
      and a valid scalar. */
  lemma {:induction false} LedgerStaysSafe(sdk: Sdk, p: Policy, events: seq<Event>)
    requires forall i :: 0 <= i < |events| ==> Proper(events[i])
    ensures Unique(LedgerAfter(sdk, p, [], events)) && AllAdmitted(sdk, p, LedgerAfter(sdk, p, [], events))
  {
    hide Unique, PutAll, Imported, ValidScalar;
    if events == [] {
      assert Unique([]) by { NothingUnique(); }
    } else {
      var init, last := events[..|events| - 1], events[|events| - 1];
      LedgerStaysSafe(sdk, p, init);
      assert Proper(last);
      if last.Extracted? {
        ImportedAdmitted(sdk, p, last.order);
      }
      PutUnique(LedgerAfter(sdk, p, [], init), Incoming(sdk, p, last));
      PutAdmitted(sdk, p, LedgerAfter(sdk, p, [], init), Incoming(sdk, p, last));
    }
  }

  lemma NothingUnique()
    ensures Unique([])
  {
  }

  /** The last local value set for a key in a run. */
  function LastSet(events: seq<Event>, key: Bytes): Option<Entry>
  {
    if events == [] then None
    else
      var e := events[|events| - 1];
      if e.Enriched? && Last(e.values, key, true).Some? then Last(e.values, key, true)
      else LastSet(events[..|events| - 1], key)
  }

  lemma {:induction false} NoLocalImported(sdk: Sdk, p: Policy, order: seq<Member>, key: Bytes)
    ensures Last(Imported(sdk, p, order), key, true) == None
  {
    hide Importable, KindOf;
    if order != [] {
      NoLocalImported(sdk, p, order[..|order| - 1], key);
      LastSnoc(Imported(sdk, p, order[..|order| - 1]), EntryOf(order[|order| - 1]), key);
      AddEmpty(Imported(sdk, p, order[..|order| - 1]));
    }
  }

  /** A local value is changed only by a later local value, never by a carrier. */
  lemma {:induction false} LocalValuesStay(sdk: Sdk, p: Policy, ledger: seq<Entry>, events: seq<Event>, key: Bytes)
    requires Lookup(ledger, key).Some? && Lookup(ledger, key).value.local
    ensures Lookup(LedgerAfter(sdk, p, ledger, events), key) ==
              if LastSet(events, key).Some? then LastSet(events, key) else Lookup(ledger, key)
    ensures LastSet(events, key).Some? ==> LastSet(events, key).value.local
  {
    hide PutAll, Imported, Lookup;
    if events != [] {
      var init, last := events[..|events| - 1], events[|events| - 1];
      LocalValuesStay(sdk, p, ledger, init, key);
      PutLookup(LedgerAfter(sdk, p, ledger, init), Incoming(sdk, p, last), key);
      LastFacts(Incoming(sdk, p, last), key);
      if last.Extracted? {
        NoLocalImported(sdk, p, last.order, key);
      }
    }
  }
}
