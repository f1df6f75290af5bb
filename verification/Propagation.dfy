/** Policy-controlled propagation of trusted values (propagation/policy.go, propagation/map.go, enrich.go). */
module Propagation {
  import opened Bytes
  import opened Baggage
  import opened Ledger

  /** The trace reference of a context, as the base propagator understands it. */
  type Trace = Option<Bytes>

  datatype Context = Context(ledger: seq<Entry>, bag: Bag, trace: Trace)

  /** What the pinned SDK accepts and how it spells members and floats. */
  datatype Sdk = Sdk(key: Bytes -> bool, raw: (Bytes, Bytes) -> bool, property: Bytes -> bool, wire: Wire,
    finite: Floats)

  /** A base propagator: any function of trace and baggage, in both directions. */
  datatype Propagator = Propagator(
    fields: seq<Bytes>, inject: (Trace, Bag) -> map<Bytes, Bytes>, extract: (Trace, map<Bytes, Bytes>) -> (Trace, Bag))

  function ValueAt(values: map<Bytes, Bytes>, k: Bytes): Bytes { if k in values then values[k] else "" }

  // ----- policy

  datatype Policy = Policy(reject: bool, ingress: set<Bytes>, egress: set<Bytes>, reserved: set<Bytes>)

  predicate PolicyKey(sdk: Sdk, key: Bytes)
  {
    key != "" && !TextSpace(key[0]) && !TextSpace(key[|key| - 1]) && sdk.key(key)
  }

  predicate PolicyKeys(sdk: Sdk, keys: seq<Bytes>) { forall i :: 0 <= i < |keys| ==> PolicyKey(sdk, keys[i]) }

  method AddKeys(sdk: Sdk, keys: seq<Bytes>) returns (r: Option<set<Bytes>>)
    ensures r == if PolicyKeys(sdk, keys) then Some(set k | k in keys) else None
  {
    var dst: set<Bytes> := {};
    var i := 0;
    while i < |keys|
      invariant 0 <= i <= |keys|
      invariant PolicyKeys(sdk, keys[..i]) && dst == set k | k in keys[..i]
    {
      if !PolicyKey(sdk, keys[i]) {
        return None;
      }
      assert keys[..i + 1] == keys[..i] + [keys[i]];
      dst := dst + {keys[i]};
      i := i + 1;
    }
    assert keys[..i] == keys;
    return Some(dst);
  }

  /** One malformed key in any list refuses the whole policy. */
  method NewPolicy(sdk: Sdk, reject: bool, ingress: seq<Bytes>, egress: seq<Bytes>, reserved: seq<Bytes>)
    returns (r: Option<Policy>)
    ensures r.Some? <==> PolicyKeys(sdk, ingress) && PolicyKeys(sdk, egress) && PolicyKeys(sdk, reserved)
    ensures r.Some? <==> forall k :: k in ingress + egress + reserved ==>
              k != "" && !TextSpace(k[0]) && !TextSpace(k[|k| - 1]) && sdk.key(k)
    ensures r.Some? ==>
              r.value == Policy(reject, set k | k in ingress, set k | k in egress, set k | k in reserved)
  {
    var i := AddKeys(sdk, ingress);
    if i == None {
      return None;
    }
    var e := AddKeys(sdk, egress);
    if e == None {
      return None;
    }
    var v := AddKeys(sdk, reserved);
    if v == None {
      return None;
    }
    return Some(Policy(reject, i.value, e.value, v.value));
  }

  const RESERVED: set<Bytes> := {"msg", "time", "level", "source", "trace_id", "span_id"}

  // ----- values as members

  function MemberOf(sdk: Sdk, v: Entry): Option<Member>
  {
    if sdk.property(v.typeName) && sdk.raw(v.key, v.text) then
      Some(Member(v.key, v.text, [Property(TYPE_KEY, v.typeName)]))
    else
      None
  }

  /** The members of the values whose key passes. */
  function MembersOf(sdk: Sdk, ledger: seq<Entry>, pass: Bytes -> bool): seq<Member>
  {
    if ledger == [] then []
    else
      var v := ledger[|ledger| - 1];
      MembersOf(sdk, ledger[..|ledger| - 1], pass)
      + if pass(v.key) && MemberOf(sdk, v).Some? then [MemberOf(sdk, v).value] else []
  }

  method CollectMembers(sdk: Sdk, ledger: seq<Entry>, pass: Bytes -> bool) returns (members: seq<Member>)
    ensures members == MembersOf(sdk, ledger, pass)
  {
    members := [];
    var i := 0;
    while i < |ledger|
      invariant 0 <= i <= |ledger| && members == MembersOf(sdk, ledger[..i], pass)
    {
      assert ledger[..i + 1][..i] == ledger[..i];
      var v := ledger[i];
      i := i + 1;
      if !pass(v.key) {
        continue;
      }
      var member := MemberOf(sdk, v);
      if member.Some? {
        members := members + [member.value];
      }
    }
    assert ledger[..i] == ledger;
  }

  function Everything(): Bytes -> bool { (k: Bytes) => true }

  function Egress(p: Policy): Bytes -> bool { (k: Bytes) => k in p.egress }

  // ----- injection

  class Carrier {
    var values: map<Bytes, Bytes>

    constructor (values: map<Bytes, Bytes>)
      ensures this.values == values
    {
      this.values := values;
    }

    function Get(k: Bytes): Bytes
      reads this
    {
      ValueAt(values, k)
    }

    method Set(k: Bytes, v: Bytes)
      modifies this
      ensures values == old(values)[k := v]
    {
      values := values[k := v];
    }
  }

  /** The baggage that leaves the process: only allowlisted trusted values. */
  ghost function Outgoing(sdk: Sdk, p: Policy, ledger: seq<Entry>): Bag
  {
    Built(LastWins(MembersOf(sdk, ledger, Egress(p))), sdk.wire).0
  }

  /** Every declared field is replaced, every other entry is kept. */
  function Replaced(fields: seq<Bytes>, before: map<Bytes, Bytes>, staged: map<Bytes, Bytes>): map<Bytes, Bytes>
  {
    map k | k in before.Keys + (set f | f in fields) :: if k in fields then ValueAt(staged, k) else before[k]
  }

  /** The carrier receives a function of the trusted values and the trace: the baggage of the
      context, which anyone may have set, plays no part. */
  method Inject(sdk: Sdk, p: Policy, base: Propagator, ctx: Context, carrier: Carrier)
    modifies carrier
    ensures carrier.values ==
              Replaced(base.fields, old(carrier.values), base.inject(ctx.trace, Outgoing(sdk, p, ctx.ledger)))
  {
    hide Outgoing, Built, LastWins, MembersOf, Fitting, Candidates, Fits, PinnedSdk, Replaced;
    var members := CollectMembers(sdk, ctx.ledger, Egress(p));
    var bag, dropped := Build(members, sdk.wire, PinnedSdk(sdk.wire));
    assert bag == Outgoing(sdk, p, ctx.ledger) by { OutgoingIsBuilt(sdk, p, ctx.ledger); }
    ghost var before := carrier.values;
    Clear(carrier, base.fields);
    var staged := new Carrier(base.inject(ctx.trace, bag));
    Copy(carrier, base.fields, staged);
    ReplacedIs(base.fields, before, staged.values, carrier.values);
  }

  lemma ReplacedIs(fields: seq<Bytes>, before: map<Bytes, Bytes>, staged: map<Bytes, Bytes>, after: map<Bytes, Bytes>)
    requires forall k :: k in after <==> k in before || k in fields
    requires forall k :: k in after ==> after[k] == if k in fields then ValueAt(staged, k) else before[k]
    ensures after == Replaced(fields, before, staged)
  {
    hide ValueAt;
  }

  lemma OutgoingIsBuilt(sdk: Sdk, p: Policy, ledger: seq<Entry>)
    ensures Outgoing(sdk, p, ledger) == Built(LastWins(MembersOf(sdk, ledger, Egress(p))), sdk.wire).0
  {
  }

  method Clear(carrier: Carrier, fields: seq<Bytes>)
    modifies carrier
    ensures forall k :: k in carrier.values <==> k in old(carrier.values) || k in fields
    ensures forall k :: k in carrier.values ==> carrier.values[k] == if k in fields then "" else old(carrier.values)[k]
  {
    var i := 0;
    while i < |fields|
      invariant 0 <= i <= |fields|
      invariant forall k :: k in carrier.values <==> k in old(carrier.values) || k in fields[..i]
      invariant forall k :: k in carrier.values ==>
        carrier.values[k] == if k in fields[..i] then "" else old(carrier.values)[k]
    {
      assert fields[..i + 1] == fields[..i] + [fields[i]];
      carrier.Set(fields[i], "");
      i := i + 1;
    }
    assert fields[..i] == fields;
  }

  /** The non-empty staged fields overwrite cleared ones. */
  method Copy(carrier: Carrier, fields: seq<Bytes>, staged: Carrier)
    requires carrier != staged && forall f :: f in fields ==> f in carrier.values && carrier.values[f] == ""
    modifies carrier
    ensures carrier.values.Keys == old(carrier.values.Keys)
    ensures forall k :: k in carrier.values ==>
              carrier.values[k] == if k in fields then ValueAt(staged.values, k) else old(carrier.values)[k]
  {
    var i := 0;
    while i < |fields|
      invariant 0 <= i <= |fields|
      invariant carrier.values.Keys == old(carrier.values.Keys)
      invariant forall k :: k in carrier.values ==>
                  carrier.values[k] == if k in fields[..i] then ValueAt(staged.values, k) else old(carrier.values)[k]
    {
      assert fields[..i + 1] == fields[..i] + [fields[i]];
      assert fields[i] in fields;
      var value := staged.Get(fields[i]);
      if value != "" {
        carrier.Set(fields[i], value);
      }
      i := i + 1;
    }
    assert fields[..i] == fields;
  }

  // ----- extraction

  /** The non-empty declared fields of a carrier. */
  function Declared(fields: seq<Bytes>, values: map<Bytes, Bytes>): map<Bytes, Bytes>
  {
    map k | k in values && k in fields && values[k] != "" :: values[k]
  }

  /** The type a member declares: its first type property, a string without one. */
  function KindOf(properties: seq<Property>): Bytes
  {
    if properties == [] then "string"
    else if properties[0].key == TYPE_KEY then properties[0].value
    else KindOf(properties[1..])
  }

  predicate Importable(sdk: Sdk, p: Policy, m: Member)
  {
    && m.key in p.ingress && m.key !in RESERVED && m.key !in p.reserved
    && ValidScalar(sdk.finite, Entry(m.key, m.value, KindOf(m.properties), false))
  }

  function Imported(sdk: Sdk, p: Policy, order: seq<Member>): seq<Entry>
  {
    if order == [] then []
    else
      var m := order[|order| - 1];
      Imported(sdk, p, order[..|order| - 1])
      + if Importable(sdk, p, m) then [Entry(m.key, m.value, KindOf(m.properties), false)] else []
  }

  /** The members of a bag in the order of its iteration, which is any order. */
  ghost predicate IterationOf(order: seq<Member>, bag: Bag)
  {
    && DistinctMembers(order) && (forall m :: m in order ==> m.key in bag && bag[m.key] == m)
    && forall k :: k in bag ==> bag[k] in order
  }

  method Members(bag: Bag) returns (order: seq<Member>)
    requires Keyed(bag)
    ensures IterationOf(order, bag)
  {
    order := [];
    var rest := bag.Keys;
    while rest != {}
      invariant rest <= bag.Keys && DistinctMembers(order)
      invariant forall m :: m in order ==> m.key in bag && bag[m.key] == m && m.key !in rest
      invariant forall k :: k in bag && k !in rest ==> bag[k] in order
    {
      var k :| k in rest;
      AppendMember(order, bag[k]);
      order := order + [bag[k]];
      rest := rest - {k};
    }
  }

  lemma AppendMember(order: seq<Member>, m: Member)
    requires DistinctMembers(order) && forall x :: x in order ==> x.key != m.key
    ensures DistinctMembers(order + [m]) && forall x :: x in order + [m] <==> x in order || x == m
  {
  }

  /** Baggage is keyed by the keys of its members, whatever propagator produced it. */
  ghost predicate KeyedExtraction(base: Propagator)
  {
    forall t, values :: Keyed(base.extract(t, values).1)
  }

  /** Only importable members become trusted, remote values; the baggage is rebuilt from trusted
      values alone; a rejected trace leaves the caller's. */
  method Extract(sdk: Sdk, p: Policy, base: Propagator, ctx: Context, carrier: Carrier)
    returns (r: Context, ghost order: seq<Member>)
    requires KeyedExtraction(base)
    ensures IterationOf(order, base.extract(ctx.trace, Declared(base.fields, carrier.values)).1)
    ensures r.trace == if p.reject then ctx.trace else base.extract(ctx.trace, Declared(base.fields, carrier.values)).0
    ensures r.ledger == PutAll(ctx.ledger, Imported(sdk, p, order))
    ensures r.bag == Built(LastWins(MembersOf(sdk, r.ledger, Everything())), sdk.wire).0
  {
    var staged := new Carrier(map[]);
    var i := 0;
    while i < |base.fields|
      invariant 0 <= i <= |base.fields|
      invariant staged.values == Declared(base.fields[..i], carrier.values)
    {
      assert base.fields[..i + 1] == base.fields[..i] + [base.fields[i]];
      var value := carrier.Get(base.fields[i]);
      if value != "" {
        staged.Set(base.fields[i], value);
      }
      i := i + 1;
    }
    assert base.fields[..i] == base.fields;
    var (trace, bag) := base.extract(ctx.trace, staged.values);
    if p.reject {
      trace := ctx.trace;
    }
    var members := Members(bag);
    order := members;
    var imported := Import(sdk, p, members);
    var ledger := PutAll(ctx.ledger, imported);
    var trusted := CollectMembers(sdk, ledger, Everything());
    var rebuilt, dropped := Build(trusted, sdk.wire, PinnedSdk(sdk.wire));
    r := Context(ledger, rebuilt, trace);
  }

  method Import(sdk: Sdk, p: Policy, order: seq<Member>) returns (imported: seq<Entry>)
    ensures imported == Imported(sdk, p, order)
  {
    imported := [];
    var i := 0;
    while i < |order|
      invariant 0 <= i <= |order| && imported == Imported(sdk, p, order[..i])
    {
      assert order[..i + 1][..i] == order[..i];
      var m := order[i];
      i := i + 1;
      if m.key !in p.ingress || m.key in RESERVED || m.key in p.reserved {
        continue;
      }
      var kind := KindOf(m.properties);
      var v := Entry(m.key, m.value, kind, false);
      if ValidScalar(sdk.finite, v) {
        imported := imported + [v];
      }
    }
    assert order[..i] == order;
  }
}
