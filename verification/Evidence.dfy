/** The conformance checker of exported payloads (genai/conformance_evidence.go) and its
    agreement with the exporter. */
module Evidence {
  import opened Bytes
  import opened Utf8
  import opened JsonText
  import opened JsonStrings
  import opened JsonTree
  import opened JsonDecode
  import opened JsonLength
  import opened Sanitize
  import opened Payload
  import opened PayloadWire
  import opened PayloadBounds
  import opened BoundedJson

  // ----- the checker

  datatype PolicyId = IdRaw | IdRedact | IdHash | IdCustom(name: Bytes)

  /** The effective settings a checker works from; it never sees the policy itself. */
  datatype Contract = Contract(policy: PolicyId, raw: bool, limit: int)

  predicate ValidFingerprint(s: Bytes)
  {
    FINGERPRINT <= s && |s| == |FINGERPRINT| + 64 && forall i :: |FINGERPRINT| <= i < |s| ==> LowerHex(s[i])
  }

  /** A vocabulary value, or an unknown one in the form the declared policy gives it. */
  predicate EnumAllowed(contract: Contract, vocabulary: set<Bytes>, value: Bytes)
  {
    && |value| <= MAX_BYTES
    && (|| value in vocabulary
        || contract.raw
        || (contract.policy == IdRedact && value == REDACTED)
        || (contract.policy == IdHash && ValidFingerprint(value)))
  }

  predicate OptionalEnum(contract: Contract, vocabulary: set<Bytes>, value: Bytes)
  {
    value == [] || EnumAllowed(contract, vocabulary, value)
  }

  /** A Go string field accepts a string or null. */
  predicate StringOrNull(v: Option<Json>) { v.None? || v.value.JStr? || v.value.JNull? }

  function StringValue(v: Option<Json>): Bytes
  {
    if v.Some? && v.value.JStr? then v.value.s else []
  }

  /** validContentPartWire: the key each kind of part must have. */
  predicate PartWire(v: Json)
  {
    v.JObj? &&
    var kind := Find(v.members, TYPE);
    && kind.Some? && StringOrNull(kind)
    && (StringValue(kind) == "text" ==>
          Find(v.members, CONTENT).Some? && StringOrNull(Find(v.members, CONTENT)))
    && (StringValue(kind) == "tool_call" ==>
          Find(v.members, NAME).Some? && StringOrNull(Find(v.members, NAME)))
    && (StringValue(kind) == "tool_call_response" ==> Find(v.members, RESPONSE).Some?)
  }

  const PART_KEYS: set<Bytes> := {TYPE, CONTENT, ID, NAME, ARGUMENTS, RESPONSE}

  /** A part decodes into ContentPart with no unknown field. */
  predicate PartShape(v: Json)
  {
    v.JNull? ||
    (&& v.JObj? && KeysWithin(v.members, PART_KEYS)
     && StringOrNull(Find(v.members, TYPE)) && StringOrNull(Find(v.members, CONTENT))
     && StringOrNull(Find(v.members, ID)) && StringOrNull(Find(v.members, NAME)))
  }

  predicate PartEnum(contract: Contract, v: Json)
  {
    v.JObj? ==> OptionalEnum(contract, KINDS, StringValue(Find(v.members, TYPE)))
  }

  predicate PartsEvidence(contract: Contract, items: seq<Json>)
  {
    && (forall i :: 0 <= i < |items| ==> PartWire(items[i]))
    && (forall i :: 0 <= i < |items| ==> PartShape(items[i]))
    && (forall i :: 0 <= i < |items| ==> PartEnum(contract, items[i]))
  }

  const MESSAGE_KEYS: set<Bytes> := {ROLE, PARTS}

  predicate MessageEvidence(contract: Contract, v: Json)
  {
    && v.JObj? && KeysWithin(v.members, MESSAGE_KEYS)
    && Find(v.members, ROLE).Some? && Find(v.members, ROLE).value.JStr?
    && Find(v.members, PARTS).Some? && Find(v.members, PARTS).value.JArr?
    && OptionalEnum(contract, ROLES, StringValue(Find(v.members, ROLE)))
    && PartsEvidence(contract, Find(v.members, PARTS).value.items)
  }

  predicate MessagesEvidence(contract: Contract, items: seq<Json>)
  {
    forall i :: 0 <= i < |items| ==> MessageEvidence(contract, items[i])
  }

  /** validPayloadEvidence for the three payload channels. */
  predicate ValidPayloadEvidence(contract: Contract, c: Channel, text: Bytes)
  {
    && |text| <= contract.limit && Valid(text) && Decode(text).Ok?
    && text != [] && text[0] == '['
    && Decode(text).value.JArr?
    && var items := Decode(text).value.items;
       if c == SystemInstructions then PartsEvidence(contract, items) else MessagesEvidence(contract, items)
  }

  // ----- the exporter's side

  function PolicyIdOf(policy: Policy): PolicyId
  {
    match policy
    case RawPolicy => IdRaw
    case RedactPolicy(_) => IdRedact
    case HashPolicy(_) => IdHash
  }

  /** contractFromConfig for a configuration that passed validateRecorderConfig. */
  function ContractOf(cfg: Config): Contract
  {
    Contract(PolicyIdOf(cfg.policy), cfg.record && cfg.policy.RawPolicy?, cfg.limit)
  }

  predicate ValidConfig(cfg: Config) { |MARKER| <= cfg.limit <= MAX_BYTES }

  // ----- enumerations

  lemma FingerprintValid(hash: Hash, s: Bytes)
    ensures ValidFingerprint(Fingerprint(hash, s))
  {
    var d := hash(s);
    assert forall i :: 0 <= i < |d| ==> LowerHex(d[i]);
  }

  lemma EnumIsAllowed(cfg: Config, vocabulary: set<Bytes>, s: Bytes)
    requires cfg.record && (vocabulary == KINDS || vocabulary == ROLES)
    requires cfg.policy.RawPolicy? ==> |s| <= MAX_BYTES
    ensures OptionalEnum(ContractOf(cfg), vocabulary, Enum(cfg.policy, vocabulary, s))
  {
    hide ShortText;
    if !cfg.policy.RawPolicy? {
      EnumShort(cfg.policy, vocabulary, s);
      ShortValid(Enum(cfg.policy, vocabulary, s));
      if cfg.policy.HashPolicy? && s != [] && s !in vocabulary {
        FingerprintValid(cfg.policy.hash, s);
      }
    }
  }

  // ----- one part read back

  function RawMeaning(raw: Bytes): Json
  {
    match Decode(raw) case Ok(v) => v case Err(_) => JNull
  }

  /** The fields of a written part as the decoder sees them. */
  function PartMembers(p: ContentPart): seq<Member>
  {
    [Member(TYPE, JStr(p.kind)), Member(CONTENT, JStr(p.content))]
    + Optional(ID, p.id != [], JStr(p.id))
    + [Member(NAME, JStr(p.name))]
    + Optional(ARGUMENTS, p.arguments != [], RawMeaning(p.arguments))
    + [Member(RESPONSE, if p.response.None? then JNull else RawMeaning(p.response.value))]
  }

  lemma StringReads(key: Bytes, s: Bytes)
    requires key in {TYPE, CONTENT, ID, NAME, ROLE} && Valid(s)
    ensures MarshalsMembers([Member(key, JStr(s))]) && ReadMembers([Member(key, JStr(s))]) == [Member(key, JStr(s))]
  {
    hide Valid, Escape;
    FieldKeys();
    ReadOne(Member(key, JStr(s)));
    CleanValid(s);
  }

  lemma RawReadsField(key: Bytes, raw: Bytes)
    requires key in {ARGUMENTS, RESPONSE} && raw != [] && RawAccepted(raw)
    ensures MarshalsMembers([Member(key, JRaw(raw))])
    ensures ReadMembers([Member(key, JRaw(raw))]) == [Member(key, RawMeaning(raw))]
  {
    hide Valid, Escape, Decode;
    FieldKeys();
    RawReads(raw);
    ReadOne(Member(key, JRaw(raw)));
  }

  lemma NullReads()
    ensures MarshalsMembers([Member(RESPONSE, JNull)])
    ensures ReadMembers([Member(RESPONSE, JNull)]) == [Member(RESPONSE, JNull)]
  {
    hide Valid, Escape;
    FieldKeys();
    ReadOne(Member(RESPONSE, JNull));
  }

  lemma OptionalIdReads(p: ContentPart)
    requires Valid(p.id)
    ensures var ms := Optional(ID, p.id != [], JStr(p.id)); MarshalsMembers(ms) && ReadMembers(ms) == ms
  {
    hide Valid;
    EmptyShrinks(true);
    if p.id != [] {
      StringReads(ID, p.id);
    }
  }

  lemma OptionalArgumentsReads(p: ContentPart)
    requires RawAccepted(p.arguments)
    ensures var ms := Optional(ARGUMENTS, p.arguments != [], JRaw(p.arguments));
      MarshalsMembers(ms) && ReadMembers(ms) == Optional(ARGUMENTS, p.arguments != [], RawMeaning(p.arguments))
  {
    hide Decode;
    EmptyShrinks(true);
    if p.arguments != [] {
      RawReadsField(ARGUMENTS, p.arguments);
    }
  }

  lemma ResponseReads(p: ContentPart)
    requires p.response != Some([]) && (p.response.Some? ==> RawAccepted(p.response.value))
    ensures var ms := [Member(RESPONSE, ResponseValue(p))];
      && MarshalsMembers(ms)
      && ReadMembers(ms) == [Member(RESPONSE, if p.response.None? then JNull else RawMeaning(p.response.value))]
  {
    hide Decode;
    NullReads();
    if p.response.Some? {
      RawReadsField(RESPONSE, p.response.value);
    }
  }

  /** A written part reads back with its own field values. */
  lemma PartReads(p: ContentPart)
    requires GoodPart(p)
    ensures MarshalsMembers(PartFields(p)) && ReadMembers(PartFields(p)) == PartMembers(p)
  {
    hide MarshalsMembers, ReadMembers, Optional, Valid, RawAccepted, RawMeaning;
    var a1, a2 := [Member(TYPE, JStr(p.kind))], [Member(CONTENT, JStr(p.content))];
    var a3 := Optional(ID, p.id != [], JStr(p.id));
    var a4 := [Member(NAME, JStr(p.name))];
    var a5 := Optional(ARGUMENTS, p.arguments != [], JRaw(p.arguments));
    var a6 := [Member(RESPONSE, ResponseValue(p))];
    StringReads(TYPE, p.kind);
    StringReads(CONTENT, p.content);
    OptionalIdReads(p);
    StringReads(NAME, p.name);
    OptionalArgumentsReads(p);
    ResponseReads(p);
    var r1, r2 := [Member(TYPE, JStr(p.kind))], [Member(CONTENT, JStr(p.content))];
    var r3 := Optional(ID, p.id != [], JStr(p.id));
    var r4 := [Member(NAME, JStr(p.name))];
    var r5 := Optional(ARGUMENTS, p.arguments != [], RawMeaning(p.arguments));
    var r6 := [Member(RESPONSE, if p.response.None? then JNull else RawMeaning(p.response.value))];
    ReadSum(a1, r1, a2, r2);
    ReadSum(a1 + a2, r1 + r2, a3, r3);
    ReadSum(a1 + a2 + a3, r1 + r2 + r3, a4, r4);
    ReadSum(a1 + a2 + a3 + a4, r1 + r2 + r3 + r4, a5, r5);
    ReadSum(a1 + a2 + a3 + a4 + a5, r1 + r2 + r3 + r4 + r5, a6, r6);
    assert a1 + a2 == [Member(TYPE, JStr(p.kind)), Member(CONTENT, JStr(p.content))];
    assert PartFields(p) == a1 + a2 + a3 + a4 + a5 + a6;
    assert PartMembers(p) == r1 + r2 + r3 + r4 + r5 + r6;
  }

  lemma ReadSum(a: seq<Member>, a': seq<Member>, b: seq<Member>, b': seq<Member>)
    requires MarshalsMembers(a) && MarshalsMembers(b) && ReadMembers(a) == a' && ReadMembers(b) == b'
    ensures MarshalsMembers(a + b) && ReadMembers(a + b) == a' + b'
  {
    hide MarshalsMembers, ReadMembers;
    ReadConcat(a, b);
  }

  lemma {:induction false} LastOfConcat(a: seq<Member>, b: seq<Member>, key: Bytes)
    ensures LastOf(a + b, key) == if LastOf(b, key).Some? then LastOf(b, key) else LastOf(a, key)
  {
    if a == [] {
      AddEmpty(b);
    } else {
      LastOfConcat(a[1..], b, key);
      assert (a + b)[1..] == a[1..] + b;
    }
  }

  lemma LastOfOne(m: Member, key: Bytes)
    ensures LastOf([m], key) == if m.key == key then Some(m.value) else None
  {
    assert [m][1..] == [];
  }

  lemma LastOfOptional(k: Bytes, present: bool, v: Json, key: Bytes)
    ensures LastOf(Optional(k, present, v), key) == if present && k == key then Some(v) else None
  {
    LastOfOne(Member(k, v), key);
  }

  /** What the map of a read part holds under each key. */
  lemma PartLookup(p: ContentPart, key: Bytes)
    ensures LastOf(PartMembers(p), key) ==
      if key == RESPONSE then Some(if p.response.None? then JNull else RawMeaning(p.response.value))
      else if key == ARGUMENTS && p.arguments != [] then Some(RawMeaning(p.arguments))
      else if key == NAME then Some(JStr(p.name))
      else if key == ID && p.id != [] then Some(JStr(p.id))
      else if key == CONTENT then Some(JStr(p.content))
      else if key == TYPE then Some(JStr(p.kind))
      else None
  {
    hide LastOf, Optional, RawMeaning;
    KeysDiffer();
    var a1, a2 := [Member(TYPE, JStr(p.kind))], [Member(CONTENT, JStr(p.content))];
    var a3 := Optional(ID, p.id != [], JStr(p.id));
    var a4 := [Member(NAME, JStr(p.name))];
    var a5 := Optional(ARGUMENTS, p.arguments != [], RawMeaning(p.arguments));
    var last := Member(RESPONSE, if p.response.None? then JNull else RawMeaning(p.response.value));
    LastOfOne(Member(TYPE, JStr(p.kind)), key);
    LastOfOne(Member(CONTENT, JStr(p.content)), key);
    LastOfOptional(ID, p.id != [], JStr(p.id), key);
    LastOfOne(Member(NAME, JStr(p.name)), key);
    LastOfOptional(ARGUMENTS, p.arguments != [], RawMeaning(p.arguments), key);
    LastOfOne(last, key);
    LastOfConcat(a1, a2, key);
    LastOfConcat(a1 + a2, a3, key);
    LastOfConcat(a1 + a2 + a3, a4, key);
    LastOfConcat(a1 + a2 + a3 + a4, a5, key);
    LastOfConcat(a1 + a2 + a3 + a4 + a5, [last], key);
    assert a1 + a2 == [Member(TYPE, JStr(p.kind)), Member(CONTENT, JStr(p.content))];
  }

  lemma {:induction false} InsertWithin(ms: seq<Member>, m: Member, keys: set<Bytes>)
    requires KeysWithin(ms, keys) && m.key in keys
    ensures KeysWithin(Insert(ms, m), keys)
  {
    hide Less;
    if ms != [] {
      assert KeysWithin(ms[1..], keys) by {
        assert forall i :: 0 <= i < |ms[1..]| ==> ms[1..][i] == ms[i + 1];
      }
      InsertWithin(ms[1..], m, keys);
    }
  }

  lemma {:induction false} InsertAllWithin(kept: seq<Member>, ms: seq<Member>, keys: set<Bytes>)
    requires KeysWithin(kept, keys) && KeysWithin(ms, keys)
    ensures KeysWithin(InsertAll(kept, ms), keys)
    decreases |ms|
  {
    if ms != [] {
      InsertWithin(kept, ms[0], keys);
      assert forall i :: 0 <= i < |ms[1..]| ==> ms[1..][i] == ms[i + 1];
      InsertAllWithin(Insert(kept, ms[0]), ms[1..], keys);
    }
  }

  lemma PartMembersWithin(p: ContentPart)
    ensures KeysWithin(PartMembers(p), PART_KEYS)
  {
    hide RawMeaning;
  }

  /** A part the exporter writes is a part the checker accepts. */
  lemma PartAgrees(contract: Contract, p: ContentPart)
    requires GoodPart(p) && OptionalEnum(contract, KINDS, p.kind)
    ensures Marshals(PartJson(p))
    ensures var v := ReadValue(PartJson(p)); PartWire(v) && PartShape(v) && PartEnum(contract, v)
  {
    hide GoodPart, MarshalsMembers, OptionalEnum, RawMeaning, PartMembers, PartFields, LastOf;
    PartReads(p);
    ReadObject(PartFields(p));
    var ms := PartMembers(p);
    var v := ReadValue(PartJson(p));
    InsertAllIsMap([], ms);
    PartMembersWithin(p);
    InsertAllWithin([], ms, PART_KEYS);
    KeysDiffer();
    assert v == JObj(InsertAll([], ms));
    PartLookup(p, TYPE);
    PartLookup(p, CONTENT);
    PartLookup(p, ID);
    PartLookup(p, NAME);
    PartLookup(p, RESPONSE);
    assert Find([], TYPE) == None && Find([], CONTENT) == None && Find([], ID) == None;
    assert Find([], NAME) == None && Find([], RESPONSE) == None;
    assert Find(v.members, TYPE) == Some(JStr(p.kind));
    assert Find(v.members, CONTENT) == Some(JStr(p.content));
    assert Find(v.members, NAME) == Some(JStr(p.name));
    assert StringOrNull(Find(v.members, ID));
    assert Find(v.members, RESPONSE).Some?;
  }

  // ----- parts and messages

  ghost predicate PartsOk(contract: Contract, parts: seq<ContentPart>)
  {
    forall i :: 0 <= i < |parts| ==> GoodPart(parts[i]) && OptionalEnum(contract, KINDS, parts[i].kind)
  }

  lemma {:induction false} PartsAgree(contract: Contract, parts: seq<ContentPart>)
    requires PartsOk(contract, parts)
    ensures MarshalsItems(PartsJson(parts)) && PartsEvidence(contract, CanonItems(ResolveItems(PartsJson(parts))))
  {
    hide GoodPart, OptionalEnum, PartWire, PartShape, PartEnum, Marshals, Resolve, Canon, PartJson;
    if parts != [] {
      PartAgrees(contract, parts[0]);
      assert PartsOk(contract, parts[1..]) by {
        assert forall i :: 0 <= i < |parts[1..]| ==> parts[1..][i] == parts[i + 1];
      }
      PartsAgree(contract, parts[1..]);
      ItemsHead(PartJson(parts[0]), PartsJson(parts[1..]));
      EvidenceCons(contract, ReadValue(PartJson(parts[0])), CanonItems(ResolveItems(PartsJson(parts[1..]))));
    }
  }

  lemma ItemsHead(j: Json, js: seq<Json>)
    requires Marshals(j) && MarshalsItems(js)
    ensures MarshalsItems([j] + js)
    ensures CanonItems(ResolveItems([j] + js)) == [ReadValue(j)] + CanonItems(ResolveItems(js))
  {
    hide Marshals, Resolve, Canon;
    assert ([j] + js)[1..] == js;
    var r := ResolveItems([j] + js);
    assert r[1..] == ResolveItems(js);
  }

  lemma EvidenceCons(contract: Contract, v: Json, items: seq<Json>)
    requires PartWire(v) && PartShape(v) && PartEnum(contract, v) && PartsEvidence(contract, items)
    ensures PartsEvidence(contract, [v] + items)
  {
    hide PartWire, PartShape, PartEnum;
    var all := [v] + items;
    forall i | 0 <= i < |all|
      ensures PartWire(all[i]) && PartShape(all[i]) && PartEnum(contract, all[i])
    {
      if i > 0 {
        assert all[i] == items[i - 1];
      }
    }
  }

  ghost predicate MessageOk(contract: Contract, m: Message)
  {
    Valid(m.role) && OptionalEnum(contract, ROLES, m.role) && PartsOk(contract, m.parts)
  }

  lemma MessageReads(m: Message)
    requires Valid(m.role) && MarshalsItems(PartsJson(m.parts))
    ensures var ms := [Member(ROLE, JStr(m.role)), Member(PARTS, JArr(PartsJson(m.parts)))];
      && MarshalsMembers(ms)
      && ReadMembers(ms) ==
        [Member(ROLE, JStr(m.role)), Member(PARTS, JArr(CanonItems(ResolveItems(PartsJson(m.parts)))))]
  {
    hide Valid, MarshalsItems, MarshalsMembers, ReadMembers, PartsJson, CanonItems, ResolveItems;
    StringReads(ROLE, m.role);
    ArrayReads(PartsJson(m.parts));
    ReadPair(Member(ROLE, JStr(m.role)), Member(PARTS, JArr(PartsJson(m.parts))));
  }

  lemma ReadPair(a: Member, b: Member)
    requires MarshalsMembers([a]) && MarshalsMembers([b])
    ensures MarshalsMembers([a, b]) && ReadMembers([a, b]) == ReadMembers([a]) + ReadMembers([b])
  {
    hide MarshalsMembers, ReadMembers;
    ReadConcat([a], [b]);
    assert [a] + [b] == [a, b];
  }

  lemma ArrayReads(js: seq<Json>)
    requires MarshalsItems(js)
    ensures MarshalsMembers([Member(PARTS, JArr(js))])
    ensures ReadMembers([Member(PARTS, JArr(js))]) == [Member(PARTS, JArr(CanonItems(ResolveItems(js))))]
  {
    hide Valid, Escape, MarshalsItems;
    PartsKey();
    ArrayMarshals(js);
    ReadOne(Member(PARTS, JArr(js)));
  }

  lemma ArrayMarshals(js: seq<Json>)
    requires MarshalsItems(js)
    ensures Marshals(JArr(js)) && ReadValue(JArr(js)) == JArr(CanonItems(ResolveItems(js)))
  {
  }

  lemma MessageAgrees(contract: Contract, m: Message)
    requires MessageOk(contract, m)
    ensures Marshals(MessageJson(m)) && MessageEvidence(contract, ReadValue(MessageJson(m)))
  {
    hide OptionalEnum, PartsEvidence, PartsOk, Valid, Marshals, MarshalsMembers, MarshalsItems, InsertAll, ReadMembers,
         ResolveItems, CanonItems, ReadValue, PartsJson, MessageEvidence, Find, KeysWithin, Nodes, Length;
    PartsAgree(contract, m.parts);
    MessageReads(m);
    ReadObject([Member(ROLE, JStr(m.role)), Member(PARTS, JArr(PartsJson(m.parts)))]);
    MessageMembers(contract, m.role, CanonItems(ResolveItems(PartsJson(m.parts))));
  }

  /** A read message is evidence when its role and its parts are. */
  lemma MessageMembers(contract: Contract, role: Bytes, items: seq<Json>)
    requires OptionalEnum(contract, ROLES, role) && PartsEvidence(contract, items)
    ensures MessageEvidence(contract, JObj(InsertAll([], [Member(ROLE, JStr(role)), Member(PARTS, JArr(items))])))
  {
    hide OptionalEnum, PartsEvidence, InsertAll, KeysWithin;
    MessageLookup(JStr(role), JArr(items));
  }

  /** What the map of a read message holds. */
  lemma MessageLookup(role: Json, parts: Json)
    ensures var ms := InsertAll([], [Member(ROLE, role), Member(PARTS, parts)]);
      && Find(ms, ROLE) == Some(role) && Find(ms, PARTS) == Some(parts) && KeysWithin(ms, MESSAGE_KEYS)
  {
    hide InsertAll;
    var a, b := Member(ROLE, role), Member(PARTS, parts);
    assert [a, b] == [a] + [b];
    InsertAllIsMap([], [a, b]);
    InsertAllWithin([], [a, b], MESSAGE_KEYS);
    KeysDiffer();
    LastOfConcat([a], [b], ROLE);
    LastOfConcat([a], [b], PARTS);
    LastOfOne(a, ROLE);
    LastOfOne(b, ROLE);
    LastOfOne(b, PARTS);
  }

  lemma {:induction false} MessagesAgree(contract: Contract, ms: seq<Message>)
    requires forall i :: 0 <= i < |ms| ==> MessageOk(contract, ms[i])
    ensures MarshalsItems(MessagesJson(ms)) && MessagesEvidence(contract, CanonItems(ResolveItems(MessagesJson(ms))))
  {
    hide MessageOk, MessageEvidence, Marshals, Resolve, Canon, MessageJson;
    if ms != [] {
      MessageAgrees(contract, ms[0]);
      MessagesAgree(contract, ms[1..]);
      ItemsHead(MessageJson(ms[0]), MessagesJson(ms[1..]));
      var tail := CanonItems(ResolveItems(MessagesJson(ms[1..])));
      var all := [ReadValue(MessageJson(ms[0]))] + tail;
      assert CanonItems(ResolveItems(MessagesJson(ms))) == all;
      forall i | 0 <= i < |all|
        ensures MessageEvidence(contract, all[i])
      {
        if i > 0 {
          assert all[i] == tail[i - 1];
        }
      }
    }
  }

  // ----- what a sanitized accepted payload holds

  lemma {:induction false} PartBytesBound(parts: seq<ContentPart>, i: nat)
    requires i < |parts|
    ensures |parts[i].kind| <= PartsBytes(parts)
  {
    if i > 0 {
      PartBytesBound(parts[1..], i - 1);
    }
  }

  lemma {:induction false} MessageBytesBound(ms: seq<Message>, i: nat)
    requires i < |ms|
    ensures |ms[i].role| <= MessagesBytes(ms) && PartsBytes(ms[i].parts) <= MessagesBytes(ms)
  {
    if i > 0 {
      MessageBytesBound(ms[1..], i - 1);
    }
  }

  /** Sanitized parts that validation accepted carry only kinds the contract allows. */
  lemma SanitizedPartsOk(cfg: Config, parts: seq<ContentPart>)
    requires cfg.record
    requires var safe := SanitizeParts(cfg.policy, parts);
      PartsAccepted(safe, false) && PartsBytes(safe) <= MAX_BYTES && MarshalsItems(PartsJson(safe))
    ensures PartsOk(ContractOf(cfg), SanitizeParts(cfg.policy, parts))
  {
    hide GoodPart, PartsAccepted, OptionalEnum, Enum, MarshalsItems, Label, SanitizeRaw;
    var safe := SanitizeParts(cfg.policy, parts);
    PartsAreGood(safe);
    forall i | 0 <= i < |safe|
      ensures GoodPart(safe[i]) && OptionalEnum(ContractOf(cfg), KINDS, safe[i].kind)
    {
      PartBytesBound(safe, i);
      assert safe[i] == SanitizePart(cfg.policy, parts[i]);
      if cfg.policy.RawPolicy? {
        RawParts(parts);
      }
      EnumIsAllowed(cfg, KINDS, parts[i].kind);
    }
  }

  lemma SanitizedMessagesOk(cfg: Config, ms: seq<Message>)
    requires cfg.record
    requires var safe := SanitizeMessages(cfg.policy, ms);
      MessagesAccepted(safe, false) && MessagesBytes(safe) <= MAX_BYTES && MarshalsItems(MessagesJson(safe))
    ensures var safe := SanitizeMessages(cfg.policy, ms);
      forall i :: 0 <= i < |safe| ==> MessageOk(ContractOf(cfg), safe[i])
  {
    hide OptionalEnum, Enum, PartsOk, PartsAccepted, GoodMessage, Valid, MarshalsItems, PartsJson;
    var safe := SanitizeMessages(cfg.policy, ms);
    forall i | 0 <= i < |safe|
      ensures MessageOk(ContractOf(cfg), safe[i])
    {
      MessageBytesBound(safe, i);
      MessagesMarshalAt(safe, i);
      assert safe[i] == SanitizeMessage(cfg.policy, ms[i]);
      SanitizedPartsOk(cfg, ms[i].parts);
      if cfg.policy.RawPolicy? {
        RawMessages(ms);
      }
      EnumIsAllowed(cfg, ROLES, ms[i].role);
    }
  }

  lemma {:induction false} MessagesMarshalAt(ms: seq<Message>, i: nat)
    requires i < |ms| && MarshalsItems(MessagesJson(ms))
    ensures MarshalsItems(PartsJson(ms[i].parts))
  {
    hide Marshals;
    if i == 0 {
      MessageMarshals(ms[0]);
    } else {
      assert MessagesJson(ms)[1..] == MessagesJson(ms[1..]);
      MessagesMarshalAt(ms[1..], i - 1);
    }
  }

  // ----- the theorem

  lemma EvidencePrefix(contract: Contract, c: Channel, kept: seq<Json>, items: seq<Json>)
    requires kept <= items
    ensures PartsEvidence(contract, items) ==> PartsEvidence(contract, kept)
    ensures MessagesEvidence(contract, items) ==> MessagesEvidence(contract, kept)
  {
    hide PartWire, PartShape, PartEnum, MessageEvidence;
    assert forall i :: 0 <= i < |kept| ==> kept[i] == items[i];
  }

  lemma ArrayTextStarts(js: seq<Json>)
    requires Marshals(JArr(js))
    ensures Text(JArr(js), true) != [] && Text(JArr(js), true)[0] == '['
  {
    hide ItemTokens, MarshalsItems;
    var rest := if js == [] then [Token(RBracket, "]")] else ItemTokens(js, true);
    RenderCons(Token(LBracket, "["), rest);
  }

  /** The recorded text of a channel starts a JSON array. */
  lemma BoundedStarts(js: seq<Json>, limit: int)
    requires |MARKER| <= limit && BoundedArray(JArr(js), limit).Ok? && BoundedArray(JArr(js), limit).value.0 != []
    ensures BoundedArray(JArr(js), limit).value.0[0] == '['
  {
    hide Text, Decode, Marshals, LongestArray, Length;
    var encoded := Text(JArr(js), true);
    ArrayTextStarts(js);
    if |encoded| > limit {
      DecodeSound(encoded);
      var items := Decode(encoded).value.items;
      DecodedItems(Decode(encoded).value);
      DecodedPrefixes(items);
      var k := LongestArray(items, |items|, limit);
      ArrayPrefix(items, k, limit);
      ArrayTextStarts(items[..k]);
    }
  }

  /** What a channel decodes to before truncation. */
  lemma ChannelItems(js: seq<Json>)
    requires Marshals(JArr(js)) && Decode(Text(JArr(js), true)).Ok?
    ensures Decode(Text(JArr(js), true)) == Ok(JArr(CanonItems(ResolveItems(js))))
  {
    hide Text, Decode, Marshals;
    DecodeOfText(JArr(js), true);
  }

  lemma ChannelAgrees(cfg: Config, c: Channel, js: seq<Json>, text: Bytes)
    requires ValidConfig(cfg) && BoundedArray(JArr(js), cfg.limit).Ok?
    requires text == BoundedArray(JArr(js), cfg.limit).value.0 && text != []
    requires MarshalsItems(js)
    requires var items := CanonItems(ResolveItems(js));
      if c == SystemInstructions then PartsEvidence(ContractOf(cfg), items)
      else MessagesEvidence(ContractOf(cfg), items)
    ensures ValidPayloadEvidence(ContractOf(cfg), c, text)
  {
    hide Text, Decode, PartsEvidence, MessagesEvidence, BoundedArray, Valid;
    ArrayTruncation(JArr(js), cfg.limit);
    ChannelItems(js);
    BoundedStarts(js, cfg.limit);
    EvidencePrefix(ContractOf(cfg), c, Decode(text).value.items, CanonItems(ResolveItems(js)));
  }

  lemma {:induction false} ChannelOfAttribute(p: Payload, cs: seq<Channel>, limit: int, i: nat)
    requires ChannelsAttributes(p, cs, limit).Some? && i < |ChannelsAttributes(p, cs, limit).value|
    requires ChannelsAttributes(p, cs, limit).value[i].Value?
    ensures var a := ChannelsAttributes(p, cs, limit).value[i];
      && BoundedArray(ChannelJson(p, a.channel), limit).Ok?
      && a.text == BoundedArray(ChannelJson(p, a.channel), limit).value.0 && a.text != []
  {
    hide BoundedArray, ChannelJson;
    var first := ChannelAttributes(p, cs[0], limit).value;
    if i >= |first| {
      ChannelOfAttribute(p, cs[1..], limit, i - |first|);
    }
  }

  lemma NullRecordsNothing(limit: int)
    requires |MARKER| <= limit
    ensures BoundedArray(JNull, limit) == Ok(("", false))
  {
    hide Text, Decode;
    DecodeOfText(JNull, true);
    LengthIsTextLength(JNull, true);
  }

  /** The exporter and the checker agree: under every valid configuration and built-in
      policy, every payload value that is recorded, truncated or not, is accepted by the
      checker under that configuration's own contract. */
  lemma ExporterSatisfiesChecker(cfg: Config, p: Payload, i: nat)
    requires ValidConfig(cfg)
    requires PayloadAttributes(cfg, p).Some? && i < |PayloadAttributes(cfg, p).value|
    requires PayloadAttributes(cfg, p).value[i].Value?
    ensures var a := PayloadAttributes(cfg, p).value[i];
      ValidPayloadEvidence(ContractOf(cfg), a.channel, a.text)
  {
    hide ChannelsAttributes, BoundedArray, PartsAccepted, MessagesAccepted, PartsEvidence, MessagesEvidence,
         PartsJson, MessagesJson, ChannelDecodes, ValidPayloadEvidence, PartsOk, MessageOk, Marshals;
    var safe := SanitizePayload(cfg.policy, p);
    ChannelOfAttribute(safe, CHANNELS, cfg.limit, i);
    var a := PayloadAttributes(cfg, p).value[i];
    NullRecordsNothing(cfg.limit);
    assert ChannelDecodes(ChannelJson(safe, a.channel));
    match a.channel {
      case SystemInstructions => SystemAgrees(cfg, p.system, a.text);
      case InputMessages => MessagesChannelAgrees(cfg, InputMessages, p.input, a.text);
      case OutputMessages => MessagesChannelAgrees(cfg, OutputMessages, p.output, a.text);
    }
  }

  lemma SystemAgrees(cfg: Config, parts: seq<ContentPart>, text: Bytes)
    requires ValidConfig(cfg) && cfg.record
    requires var safe := SanitizeParts(cfg.policy, parts);
      && PartsAccepted(safe, false) && PartsBytes(safe) <= MAX_BYTES
      && ChannelDecodes(JArr(PartsJson(safe)))
      && BoundedArray(JArr(PartsJson(safe)), cfg.limit).Ok?
      && text == BoundedArray(JArr(PartsJson(safe)), cfg.limit).value.0 && text != []
    ensures ValidPayloadEvidence(ContractOf(cfg), SystemInstructions, text)
  {
    hide BoundedArray, PartsAccepted, PartsEvidence, ValidPayloadEvidence, PartsOk, Text, Decode, PartsJson;
    var safe := SanitizeParts(cfg.policy, parts);
    SanitizedPartsOk(cfg, parts);
    PartsAgree(ContractOf(cfg), safe);
    ChannelAgrees(cfg, SystemInstructions, PartsJson(safe), text);
  }

  lemma MessagesChannelAgrees(cfg: Config, c: Channel, ms: seq<Message>, text: Bytes)
    requires ValidConfig(cfg) && cfg.record && c != SystemInstructions
    requires var safe := SanitizeMessages(cfg.policy, ms);
      && MessagesAccepted(safe, false) && MessagesBytes(safe) <= MAX_BYTES
      && ChannelDecodes(JArr(MessagesJson(safe)))
      && BoundedArray(JArr(MessagesJson(safe)), cfg.limit).Ok?
      && text == BoundedArray(JArr(MessagesJson(safe)), cfg.limit).value.0 && text != []
    ensures ValidPayloadEvidence(ContractOf(cfg), c, text)
  {
    hide BoundedArray, MessagesAccepted, MessagesEvidence, ValidPayloadEvidence, MessageOk, Text, Decode, MessagesJson;
    var safe := SanitizeMessages(cfg.policy, ms);
    SanitizedMessagesOk(cfg, ms);
    MessagesAgree(ContractOf(cfg), safe);
    ChannelAgrees(cfg, c, MessagesJson(safe), text);
  }
}
