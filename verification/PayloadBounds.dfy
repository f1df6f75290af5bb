/** What sanitizing does to the bounds of a payload that passed input validation: it never
    adds nodes or depth, and hashing, or redacting without schema keys, stays within the
    byte bounds as well. */
module PayloadBounds {
  import opened Bytes
  import opened Utf8
  import opened JsonStrings
  import opened JsonTree
  import opened JsonDepth
  import opened JsonDecode
  import opened JsonLength
  import opened Sanitize
  import opened Payload
  import opened PayloadWire
  import BoundedJson

  /** A policy that turns every nonempty object into a leaf. */
  predicate Keyless(policy: Policy) { !policy.RawPolicy? && KeysOf(policy) == {} }

  /** Bytes a node may take with its key and punctuation; a full channel stays below the
      input bound. */
  const COST: int := 106

  // ----- one value

  /** j' takes the place of j: no more nodes or depth than j and, when the fit is tight, at
      most COST bytes for each node of j. */
  ghost predicate Shrinks(tight: bool, j': Json, j: Json)
    requires Marshals(j)
  {
    && Marshals(j')
    && Nodes(ReadValue(j')) <= Nodes(ReadValue(j))
    && Depth(Resolve(j')) <= Depth(Resolve(j))
    && (tight ==> Length(j', true) + 1 <= COST * Nodes(ReadValue(j)))
  }

  ghost predicate ShortText(s: Bytes) { PlainText(s) && |s| <= 71 }

  lemma LabelShort(policy: Policy, s: Bytes)
    requires !policy.RawPolicy?
    ensures ShortText(Label(policy, s))
    ensures Label(policy, s) == [] <==> s == []
  {
    if policy.HashPolicy? && s != [] {
      FingerprintPlain(policy.hash, s);
    }
  }

  lemma KindShort(s: Bytes)
    requires s in KINDS
    ensures ShortText(s)
  {
    assert ShortText("text") && ShortText("image") && ShortText("image_url") && ShortText("audio");
    assert ShortText("video") && ShortText("file") && ShortText("tool_call");
    assert ShortText("tool_call_response") && ShortText("reasoning");
    hide ShortText;
  }

  lemma RoleShort(s: Bytes)
    requires s in ROLES
    ensures ShortText(s)
  {
    assert ShortText("system") && ShortText("user") && ShortText("assistant");
    assert ShortText("tool") && ShortText("developer") && ShortText("function");
    hide ShortText;
  }

  lemma EnumShort(policy: Policy, vocabulary: set<Bytes>, s: Bytes)
    requires !policy.RawPolicy? && (vocabulary == KINDS || vocabulary == ROLES)
    ensures ShortText(Enum(policy, vocabulary, s))
  {
    hide ShortText;
    LabelShort(policy, s);
    if s in vocabulary {
      if vocabulary == KINDS {
        KindShort(s);
      } else {
        RoleShort(s);
      }
    } else if s == [] {
      EmptyShort();
    }
  }

  lemma EmptyShort()
    ensures ShortText([])
  {
  }

  /** A protected string in place of any string. */
  lemma StringShrinks(tight: bool, s': Bytes, s: Bytes)
    requires ShortText(s')
    ensures Shrinks(tight, JStr(s'), JStr(s)) && Length(JStr(s'), true) <= 73 && Nodes(ReadValue(JStr(s))) == 1
    ensures Valid(s')
  {
    EscapePlain(s', true);
  }

  /** Sanitized raw text in place of raw text that was accepted. */
  lemma RawShrinks(policy: Policy, raw: Bytes)
    requires !policy.RawPolicy? && raw != [] && Decode(raw).Ok?
    ensures Marshals(JRaw(raw)) && Nodes(ReadValue(JRaw(raw))) <= MAX_NODES
    ensures var raw' := SanitizeRaw(policy, raw);
      && raw' != [] && Shrinks(Keyless(policy), JRaw(raw'), JRaw(raw))
      && (|raw'| <= MAX_BYTES ==> Decode(raw').Ok?)
      && (Keyless(policy) ==> |raw'| + 1 <= 74 * Nodes(ReadValue(JRaw(raw))))
      && Length(JRaw(raw'), true) == |raw'|
  {
    hide Decode, Valid, Nodes, Depth, WellFormed, Canonical, SanitizeValue, Parse, Text;
    var leaf := LeafOf(policy);
    var v := Decode(raw).value;
    LeafShort(policy);
    RawReads(raw);
    DecodeSound(raw);
    SanitizeBounds(v, leaf, KeysOf(policy));
    if Keyless(policy) {
      SanitizedLength(v, leaf);
    }
    SanitizedTextDecodes(raw, leaf, KeysOf(policy));
    var r := SanitizeValue(v, leaf, KeysOf(policy));
    LengthIsTextLength(r, true);
    LengthPositive(r);
    RewriteSame(r);
    CanonShallower(raw);
  }

  lemma LeafShort(policy: Policy)
    requires !policy.RawPolicy?
    ensures Short(LeafOf(policy))
  {
    var hash: Hash := if policy.HashPolicy? then policy.hash else (s: Bytes) => seq(64, _ => '0');
    BuiltInLeavesShort(hash);
  }

  lemma LengthPositive(v: Json)
    requires Marshals(v) && WellFormed(v)
    ensures Length(v, true) > 0
  {
  }

  lemma RawReads(raw: Bytes)
    requires raw != [] && Decode(raw).Ok?
    ensures Marshals(JRaw(raw)) && ReadValue(JRaw(raw)) == Decode(raw).value
  {
  }

  lemma CanonShallower(raw: Bytes)
    requires raw != [] && Decode(raw).Ok?
    ensures Marshals(JRaw(raw)) && Depth(Decode(raw).value) <= Depth(Resolve(JRaw(raw)))
  {
    ParseWellFormed(raw);
    CanonBounds(Parse(raw).value);
  }

  // ----- one member

  /** Members ms' take the place of ms, byte for byte as fields and as JSON. */
  ghost predicate MembersShrink(tight: bool, ms': seq<Member>, ms: seq<Member>)
    requires MarshalsMembers(ms)
  {
    && MarshalsMembers(ms')
    && NodesMembers(ReadMembers(ms')) <= NodesMembers(ReadMembers(ms))
    && DepthMembers(ResolveMembers(ms')) <= DepthMembers(ResolveMembers(ms))
    && (tight ==> LengthMembers(ms', true) <= COST * NodesMembers(ReadMembers(ms)))
  }

  lemma MemberShrinks(tight: bool, key: Bytes, v': Json, v: Json)
    requires Valid(key) && |Escape(key, true)| <= 28 && Marshals(v) && Shrinks(tight, v', v)
    requires tight ==> Length(v', true) + 1 <= 74 * Nodes(ReadValue(v))
    ensures MarshalsMembers([Member(key, v)]) && MembersShrink(tight, [Member(key, v')], [Member(key, v)])
    ensures ReadMembers([Member(key, v)]) == [Member(key, ReadValue(v))]
  {
    hide Marshals, Length, Nodes, Depth, Resolve, Canon, Escape, Valid, LengthMembers, NodesMembers, DepthMembers;
    ReadOne(Member(key, v'));
    ReadOne(Member(key, v));
    NodesAtLeastOne(ReadValue(v));
  }

  lemma NodesAtLeastOne(v: Json)
    ensures Nodes(v) >= 1
  {
  }

  lemma MembersShrinkConcat(tight: bool, a': seq<Member>, a: seq<Member>, b': seq<Member>, b: seq<Member>)
    requires MarshalsMembers(a) && MarshalsMembers(b) && MembersShrink(tight, a', a) && MembersShrink(tight, b', b)
    ensures MarshalsMembers(a + b) && MembersShrink(tight, a' + b', a + b)
    ensures ReadMembers(a + b) == ReadMembers(a) + ReadMembers(b)
  {
    hide MarshalsMembers, ReadMembers, ResolveMembers, LengthMembers, NodesMembers, DepthMembers;
    ReadConcat(a, b);
    ReadConcat(a', b');
    MeasuresConcat(ReadMembers(a), ReadMembers(b));
    MeasuresConcat(ReadMembers(a'), ReadMembers(b'));
    MeasuresConcat(ResolveMembers(a), ResolveMembers(b));
    MeasuresConcat(ResolveMembers(a'), ResolveMembers(b'));
  }

  lemma EmptyShrinks(tight: bool)
    ensures MarshalsMembers([]) && MembersShrink(tight, [], []) && ReadMembers([]) == []
  {
  }

  lemma ObjectShrinks(tight: bool, ms': seq<Member>, ms: seq<Member>)
    requires MarshalsMembers(ms) && MembersShrink(tight, ms', ms) && DistinctKeys(ReadMembers(ms))
    ensures Marshals(JObj(ms)) && Shrinks(tight, JObj(ms'), JObj(ms))
    ensures Nodes(ReadValue(JObj(ms))) == 1 + NodesMembers(ReadMembers(ms))
  {
    hide MarshalsMembers, ReadMembers, ResolveMembers, LengthMembers, NodesMembers, DepthMembers;
    ReadObject(ms);
    ReadObject(ms');
  }

  // ----- items

  ghost predicate ItemsShrink(tight: bool, js': seq<Json>, js: seq<Json>)
    requires MarshalsItems(js)
  {
    && MarshalsItems(js')
    && NodesItems(CanonItems(ResolveItems(js'))) <= NodesItems(CanonItems(ResolveItems(js)))
    && DepthItems(ResolveItems(js')) <= DepthItems(ResolveItems(js))
    && (tight ==> LengthItems(js', true) <= COST * NodesItems(CanonItems(ResolveItems(js))))
  }

  lemma ItemsShrinkCons(tight: bool, j': Json, j: Json, js': seq<Json>, js: seq<Json>)
    requires Marshals(j) && MarshalsItems(js) && Shrinks(tight, j', j) && ItemsShrink(tight, js', js)
    ensures MarshalsItems([j] + js) && ItemsShrink(tight, [j'] + js', [j] + js)
    ensures CanonItems(ResolveItems([j] + js)) == [ReadValue(j)] + CanonItems(ResolveItems(js))
    ensures NodesItems(CanonItems(ResolveItems([j] + js)))
         == Nodes(ReadValue(j)) + NodesItems(CanonItems(ResolveItems(js)))
  {
    hide Marshals, Resolve, Canon, Length, Nodes, Depth;
    ItemsCons(j, js);
    ItemsCons(j', js');
  }

  lemma ItemsCons(j: Json, js: seq<Json>)
    requires Marshals(j) && MarshalsItems(js)
    ensures MarshalsItems([j] + js)
    ensures CanonItems(ResolveItems([j] + js)) == [ReadValue(j)] + CanonItems(ResolveItems(js))
    ensures NodesItems(CanonItems(ResolveItems([j] + js)))
         == Nodes(ReadValue(j)) + NodesItems(CanonItems(ResolveItems(js)))
    ensures DepthItems(ResolveItems([j] + js)) == Max(Depth(Resolve(j)), DepthItems(ResolveItems(js)))
    ensures LengthItems([j] + js, true) == Length(j, true) + 1 + LengthItems(js, true)
  {
    hide Marshals, Resolve, Canon, Length, Nodes, Depth;
    assert ([j] + js)[1..] == js;
    var r := ResolveItems([j] + js);
    assert r[1..] == ResolveItems(js);
    var c := CanonItems(r);
    assert c[1..] == CanonItems(ResolveItems(js));
  }

  lemma ArrayShrinks(tight: bool, js': seq<Json>, js: seq<Json>)
    requires MarshalsItems(js) && ItemsShrink(tight, js', js)
    ensures Marshals(JArr(js)) && Shrinks(tight, JArr(js'), JArr(js))
    ensures tight ==> Length(JArr(js'), true) + 1 <= 74 * 2 + COST * NodesItems(CanonItems(ResolveItems(js)))
    ensures Nodes(ReadValue(JArr(js))) == 1 + NodesItems(CanonItems(ResolveItems(js)))
  {
  }

  // ----- parts

  /** A part as validation accepts it; an empty but non-nil response cannot be encoded. */
  predicate GoodPart(p: ContentPart)
  {
    PartAccepted(p, false) && p.response != Some([])
  }

  lemma PartKeysPlain()
    ensures PlainText(TYPE) && PlainText(CONTENT) && PlainText(ID) && PlainText(NAME)
  {
  }

  lemma OtherKeysPlain()
    ensures PlainText(ARGUMENTS) && PlainText(RESPONSE) && PlainText(ROLE) && PlainText(PARTS)
  {
  }

  /** The field names need no escaping. */
  lemma FieldKey(key: Bytes)
    requires key in {TYPE, CONTENT, ID, NAME, ARGUMENTS, RESPONSE, ROLE, PARTS}
    ensures Valid(key) && Escape(key, true) == key && |key| <= 28
  {
    hide Valid, Escape, PlainText;
    PartKeysPlain();
    OtherKeysPlain();
    EscapePlain(key, true);
  }

  lemma FieldKeys()
    ensures forall key :: key in {TYPE, CONTENT, ID, NAME, ARGUMENTS, RESPONSE, ROLE, PARTS} ==>
              Valid(key) && |Escape(key, true)| <= 28
  {
    hide Valid, Escape;
    forall key | key in {TYPE, CONTENT, ID, NAME, ARGUMENTS, RESPONSE, ROLE, PARTS}
      ensures Valid(key) && |Escape(key, true)| <= 28
    {
      FieldKey(key);
    }
  }

  lemma KeysDiffer()
    ensures TYPE != CONTENT && TYPE != ID && TYPE != NAME && TYPE != ARGUMENTS && TYPE != RESPONSE
    ensures CONTENT != ID && CONTENT != NAME && CONTENT != ARGUMENTS && CONTENT != RESPONSE
    ensures ID != NAME && ID != ARGUMENTS && ID != RESPONSE && NAME != ARGUMENTS && NAME != RESPONSE
    ensures ARGUMENTS != RESPONSE && ROLE != PARTS
  {
    assert TYPE[0] != NAME[0] && ROLE[0] != PARTS[0];
  }

  /** The keys of the members, in order. */
  function KeyList(ms: seq<Member>): (r: seq<Bytes>)
    ensures |r| == |ms| && forall i :: 0 <= i < |r| ==> r[i] == ms[i].key
  {
    seq(|ms|, i requires 0 <= i < |ms| => ms[i].key)
  }

  function PartKeys(p: ContentPart): seq<Bytes>
  {
    [TYPE, CONTENT] + (if p.id != [] then [ID] else []) + [NAME]
    + (if p.arguments != [] then [ARGUMENTS] else []) + [RESPONSE]
  }

  lemma PartKeysDistinct(p: ContentPart, ms: seq<Member>)
    requires KeyList(ms) == PartKeys(p)
    ensures DistinctKeys(ms)
  {
    KeysDiffer();
    forall i, j | 0 <= i < j < |ms|
      ensures ms[i].key != ms[j].key
    {
      assert KeyList(ms)[i] == ms[i].key && KeyList(ms)[j] == ms[j].key;
    }
  }

  lemma ReadKeys(ms: seq<Member>)
    requires MarshalsMembers(ms) && forall i :: 0 <= i < |ms| ==> Valid(ms[i].key)
    ensures KeyList(ReadMembers(ms)) == KeyList(ms)
  {
    hide ReadMembers, MarshalsMembers, Valid, KeyList;
    ReadKeysAt(ms);
    assert forall i :: 0 <= i < |ms| ==> KeyList(ReadMembers(ms))[i] == KeyList(ms)[i];
  }

  lemma {:induction false} ReadKeysAt(ms: seq<Member>)
    requires MarshalsMembers(ms) && forall i :: 0 <= i < |ms| ==> Valid(ms[i].key)
    ensures |ReadMembers(ms)| == |ms| && forall i :: 0 <= i < |ms| ==> ReadMembers(ms)[i].key == ms[i].key
  {
    hide Marshals, Resolve, Canon, Valid;
    if ms != [] {
      assert forall i :: 0 <= i < |ms[1..]| ==> ms[1..][i] == ms[i + 1];
      ReadKeysAt(ms[1..]);
      CleanValid(ms[0].key);
      var r := ReadMembers(ms);
      assert r[1..] == ReadMembers(ms[1..]);
      forall i | 0 <= i < |ms|
        ensures r[i].key == ms[i].key
      {
        if i > 0 {
          assert r[i] == r[1..][i - 1];
        }
      }
    }
  }

  lemma PartFieldsKeys(p: ContentPart)
    requires MarshalsMembers(PartFields(p))
    ensures DistinctKeys(ReadMembers(PartFields(p)))
  {
    hide MarshalsMembers, ReadMembers, Valid, Escape;
    FieldKeys();
    var ms := PartFields(p);
    assert KeyList(ms) == PartKeys(p);
    forall i | 0 <= i < |ms|
      ensures Valid(ms[i].key)
    {
      assert KeyList(ms)[i] in {TYPE, CONTENT, ID, NAME, ARGUMENTS, RESPONSE};
    }
    ReadKeys(ms);
    PartKeysDistinct(p, ReadMembers(ms));
  }

  /** A field of a part with its protected form. */
  lemma StringField(tight: bool, key: Bytes, s': Bytes, s: Bytes)
    requires key in {TYPE, CONTENT, ID, NAME, ROLE} && ShortText(s')
    ensures MarshalsMembers([Member(key, JStr(s))])
      && MembersShrink(tight, [Member(key, JStr(s'))], [Member(key, JStr(s))])
    ensures ReadMembers([Member(key, JStr(s))]) == [Member(key, ReadValue(JStr(s)))]
    ensures NodesMembers(ReadMembers([Member(key, JStr(s))])) == 1
  {
    hide MembersShrink, Valid, Escape, Length, Shrinks;
    FieldKeys();
    StringShrinks(tight, s', s);
    MemberShrinks(tight, key, JStr(s'), JStr(s));
    ReadOne(Member(key, JStr(s)));
  }

  lemma IdField(policy: Policy, p: ContentPart)
    requires !policy.RawPolicy?
    ensures var p' := SanitizePart(policy, p);
      var ms, ms' := Optional(ID, p.id != [], JStr(p.id)), Optional(ID, p'.id != [], JStr(p'.id));
      && MarshalsMembers(ms) && MembersShrink(Keyless(policy), ms', ms)
      && |p'.id| <= 74 * NodesMembers(ReadMembers(ms))
  {
    hide MembersShrink, MarshalsMembers, ReadMembers;
    LabelShort(policy, p.id);
    if p.id != [] {
      StringField(Keyless(policy), ID, Label(policy, p.id), p.id);
    } else {
      EmptyShrinks(Keyless(policy));
    }
  }

  /** A raw field of a part with its sanitized form. */
  lemma RawField(policy: Policy, key: Bytes, raw: Bytes)
    requires !policy.RawPolicy? && key in {ARGUMENTS, RESPONSE} && raw != [] && Decode(raw).Ok?
    ensures var raw' := SanitizeRaw(policy, raw);
      var ms, ms' := [Member(key, JRaw(raw))], [Member(key, JRaw(raw'))];
      && raw' != [] && (|raw'| <= MAX_BYTES ==> Decode(raw').Ok?)
      && MarshalsMembers(ms) && MembersShrink(Keyless(policy), ms', ms)
      && (Keyless(policy) ==> |raw'| <= 74 * NodesMembers(ReadMembers(ms)))
  {
    hide MembersShrink, Valid, Escape, Length, Shrinks, SanitizeRaw, Decode, Nodes, Marshals, ReadMembers,
         NodesMembers, ReadValue;
    FieldKeys();
    RawShrinks(policy, raw);
    var raw' := SanitizeRaw(policy, raw);
    MemberShrinks(Keyless(policy), key, JRaw(raw'), JRaw(raw));
    ReadOne(Member(key, JRaw(raw)));
  }

  lemma NullField(tight: bool, key: Bytes)
    requires key == RESPONSE
    ensures MarshalsMembers([Member(key, JNull)]) && MembersShrink(tight, [Member(key, JNull)], [Member(key, JNull)])
  {
    hide MembersShrink, Valid, Escape;
    FieldKeys();
    MemberShrinks(tight, key, JNull, JNull);
  }

  lemma ArgumentsField(policy: Policy, p: ContentPart)
    requires !policy.RawPolicy? && GoodPart(p)
    ensures var p' := SanitizePart(policy, p);
      var ms := Optional(ARGUMENTS, p.arguments != [], JRaw(p.arguments));
      var ms' := Optional(ARGUMENTS, p'.arguments != [], JRaw(p'.arguments));
      && MarshalsMembers(ms) && MembersShrink(Keyless(policy), ms', ms)
      && (|p'.arguments| <= MAX_BYTES ==> RawAccepted(p'.arguments))
      && (Keyless(policy) ==> |p'.arguments| <= 74 * NodesMembers(ReadMembers(ms)))
  {
    hide MembersShrink, MarshalsMembers, ReadMembers, Decode, NodesMembers;
    if p.arguments != [] {
      RawField(policy, ARGUMENTS, p.arguments);
    } else {
      EmptyShrinks(Keyless(policy));
    }
  }

  function ResponseValue(p: ContentPart): Json
  {
    if p.response.None? then JNull else JRaw(p.response.value)
  }

  lemma ResponseField(policy: Policy, p: ContentPart)
    requires !policy.RawPolicy? && GoodPart(p)
    ensures var p' := SanitizePart(policy, p);
      var ms, ms' := [Member(RESPONSE, ResponseValue(p))], [Member(RESPONSE, ResponseValue(p'))];
      && MarshalsMembers(ms) && MembersShrink(Keyless(policy), ms', ms) && p'.response != Some([])
      && (p'.response.Some? && |p'.response.value| <= MAX_BYTES ==> RawAccepted(p'.response.value))
      && (Keyless(policy) ==>
            (if p'.response.None? then 0 else |p'.response.value|) <= 74 * NodesMembers(ReadMembers(ms)))
  {
    hide MembersShrink, MarshalsMembers, ReadMembers, Decode, NodesMembers;
    if p.response.Some? {
      RawField(policy, RESPONSE, p.response.value);
    } else {
      NullField(Keyless(policy), RESPONSE);
    }
  }

  /** What replaces a part fits wherever the part did, as JSON and as counted bytes, unless
      its own bytes outgrow the bound. */
  lemma PartShrinks(policy: Policy, p: ContentPart)
    requires !policy.RawPolicy? && GoodPart(p)
    ensures var p' := SanitizePart(policy, p);
      && (PartBytes(p') <= MAX_BYTES ==> GoodPart(p'))
      && Marshals(PartJson(p)) && Shrinks(Keyless(policy), PartJson(p'), PartJson(p))
      && (Keyless(policy) ==> PartBytes(p') <= 74 * Nodes(ReadValue(PartJson(p))))
  {
    hide MembersShrink, MarshalsMembers, ReadMembers, NodesMembers, Shrinks, Decode, Valid, Label, Enum,
         SanitizeRaw, ReadValue, Keyless;
    var p' := SanitizePart(policy, p);
    var tight := Keyless(policy);
    EnumShort(policy, KINDS, p.kind);
    LabelShort(policy, p.content);
    LabelShort(policy, p.name);
    LabelShort(policy, p.id);
    StringField(tight, TYPE, p'.kind, p.kind);
    StringField(tight, CONTENT, p'.content, p.content);
    IdField(policy, p);
    StringField(tight, NAME, p'.name, p.name);
    ArgumentsField(policy, p);
    ResponseField(policy, p);
    ShortValid(p'.kind);
    ShortValid(p'.content);
    ShortValid(p'.id);
    ShortValid(p'.name);
    FieldsShrink(tight, p', p);
    ObjectShrinks(tight, PartFields(p'), PartFields(p));
  }

  lemma ShortValid(s: Bytes)
    requires ShortText(s)
    ensures Valid(s) && |s| <= 71
  {
    EscapePlain(s, true);
  }

  /** The fields one by one make the object. */
  lemma FieldsShrink(tight: bool, p': ContentPart, p: ContentPart)
    requires var a, a' := [Member(TYPE, JStr(p.kind))], [Member(TYPE, JStr(p'.kind))];
      MarshalsMembers(a) && MembersShrink(tight, a', a)
    requires var a, a' := [Member(CONTENT, JStr(p.content))], [Member(CONTENT, JStr(p'.content))];
      MarshalsMembers(a) && MembersShrink(tight, a', a)
    requires var a, a' := Optional(ID, p.id != [], JStr(p.id)), Optional(ID, p'.id != [], JStr(p'.id));
      MarshalsMembers(a) && MembersShrink(tight, a', a)
    requires var a, a' := [Member(NAME, JStr(p.name))], [Member(NAME, JStr(p'.name))];
      MarshalsMembers(a) && MembersShrink(tight, a', a)
    requires var a, a' := Optional(ARGUMENTS, p.arguments != [], JRaw(p.arguments)),
                          Optional(ARGUMENTS, p'.arguments != [], JRaw(p'.arguments));
      MarshalsMembers(a) && MembersShrink(tight, a', a)
    requires var a, a' := [Member(RESPONSE, ResponseValue(p))], [Member(RESPONSE, ResponseValue(p'))];
      MarshalsMembers(a) && MembersShrink(tight, a', a)
    ensures MarshalsMembers(PartFields(p)) && MembersShrink(tight, PartFields(p'), PartFields(p))
    ensures DistinctKeys(ReadMembers(PartFields(p)))
    ensures NodesMembers(ReadMembers(PartFields(p)))
         == NodesMembers(ReadMembers([Member(TYPE, JStr(p.kind))]))
          + NodesMembers(ReadMembers([Member(CONTENT, JStr(p.content))]))
          + NodesMembers(ReadMembers(Optional(ID, p.id != [], JStr(p.id))))
          + NodesMembers(ReadMembers([Member(NAME, JStr(p.name))]))
          + NodesMembers(ReadMembers(Optional(ARGUMENTS, p.arguments != [], JRaw(p.arguments))))
          + NodesMembers(ReadMembers([Member(RESPONSE, ResponseValue(p))]))
  {
    hide MembersShrink, MarshalsMembers, ReadMembers, NodesMembers, Optional;
    var a1, b1 := [Member(TYPE, JStr(p.kind))], [Member(TYPE, JStr(p'.kind))];
    var a2, b2 := [Member(CONTENT, JStr(p.content))], [Member(CONTENT, JStr(p'.content))];
    var a3, b3 := Optional(ID, p.id != [], JStr(p.id)), Optional(ID, p'.id != [], JStr(p'.id));
    var a4, b4 := [Member(NAME, JStr(p.name))], [Member(NAME, JStr(p'.name))];
    var a5, b5 := Optional(ARGUMENTS, p.arguments != [], JRaw(p.arguments)),
                  Optional(ARGUMENTS, p'.arguments != [], JRaw(p'.arguments));
    var a6, b6 := [Member(RESPONSE, ResponseValue(p))], [Member(RESPONSE, ResponseValue(p'))];
    MembersShrinkSum(tight, b1, a1, b2, a2);
    MembersShrinkSum(tight, b1 + b2, a1 + a2, b3, a3);
    MembersShrinkSum(tight, b1 + b2 + b3, a1 + a2 + a3, b4, a4);
    MembersShrinkSum(tight, b1 + b2 + b3 + b4, a1 + a2 + a3 + a4, b5, a5);
    MembersShrinkSum(tight, b1 + b2 + b3 + b4 + b5, a1 + a2 + a3 + a4 + a5, b6, a6);
    assert a1 + a2 == [Member(TYPE, JStr(p.kind)), Member(CONTENT, JStr(p.content))];
    assert b1 + b2 == [Member(TYPE, JStr(p'.kind)), Member(CONTENT, JStr(p'.content))];
    assert PartFields(p) == a1 + a2 + a3 + a4 + a5 + a6;
    assert PartFields(p') == b1 + b2 + b3 + b4 + b5 + b6;
    PartFieldsKeys(p);
  }

  lemma MembersShrinkSum(tight: bool, a': seq<Member>, a: seq<Member>, b': seq<Member>, b: seq<Member>)
    requires MarshalsMembers(a) && MarshalsMembers(b) && MembersShrink(tight, a', a) && MembersShrink(tight, b', b)
    ensures MarshalsMembers(a + b) && MembersShrink(tight, a' + b', a + b)
    ensures NodesMembers(ReadMembers(a + b)) == NodesMembers(ReadMembers(a)) + NodesMembers(ReadMembers(b))
  {
    hide MarshalsMembers, MembersShrink, ReadMembers, NodesMembers;
    MembersShrinkConcat(tight, a', a, b', b);
    MeasuresConcat(ReadMembers(a), ReadMembers(b));
  }

  // ----- parts, messages, channels

  lemma {:induction false} PartsShrink(policy: Policy, parts: seq<ContentPart>)
    requires !policy.RawPolicy? && forall i :: 0 <= i < |parts| ==> GoodPart(parts[i])
    ensures var parts' := SanitizeParts(policy, parts);
      && MarshalsItems(PartsJson(parts)) && ItemsShrink(Keyless(policy), PartsJson(parts'), PartsJson(parts))
      && (PartsBytes(parts') <= MAX_BYTES ==> PartsAccepted(parts', false))
      && (Keyless(policy) ==> PartsBytes(parts') <= 74 * NodesItems(CanonItems(ResolveItems(PartsJson(parts)))))
  {
    hide GoodPart, PartAccepted, Shrinks, ItemsShrink, SanitizePart, PartJson, Nodes, ReadValue, MarshalsItems,
         Marshals, Keyless, PartBytes, PartsAccepted, NodesItems, CanonItems, ResolveItems;
    if parts != [] {
      var p, rest := parts[0], parts[1..];
      PartShrinks(policy, p);
      PartsShrink(policy, rest);
      ItemsShrinkCons(Keyless(policy), PartJson(SanitizePart(policy, p)), PartJson(p),
                      PartsJson(SanitizeParts(policy, rest)), PartsJson(rest));
      PartsCons(SanitizePart(policy, p), SanitizeParts(policy, rest));
    } else {
      NoItemsShrink(Keyless(policy));
      NoParts();
    }
  }

  lemma NoParts()
    ensures PartsAccepted([], false) && PartsBytes([]) == 0 && PartsJson([]) == []
  {
  }

  /** Parts are counted and accepted one at a time. */
  lemma PartsCons(p: ContentPart, rest: seq<ContentPart>)
    ensures PartsBytes([p] + rest) == PartBytes(p) + PartsBytes(rest)
    ensures PartsJson([p] + rest) == [PartJson(p)] + PartsJson(rest)
    ensures GoodPart(p) && PartsAccepted(rest, false) ==> PartsAccepted([p] + rest, false)
  {
    hide PartBytes, PartJson, RawAccepted, Valid, Inline;
    DropTake([p], rest);
    if GoodPart(p) && PartsAccepted(rest, false) {
      forall i | 0 <= i < |[p] + rest|
        ensures PartAccepted(([p] + rest)[i], false)
      {
        if i > 0 {
          assert ([p] + rest)[i] == rest[i - 1];
        }
      }
    }
  }

  lemma NoItemsShrink(tight: bool)
    ensures MarshalsItems([]) && ItemsShrink(tight, [], [])
  {
  }

  ghost predicate GoodMessage(m: Message)
  {
    Valid(m.role) && forall i :: 0 <= i < |m.parts| ==> GoodPart(m.parts[i])
  }

  lemma MessageShrinks(policy: Policy, m: Message)
    requires !policy.RawPolicy? && GoodMessage(m)
    ensures var m' := SanitizeMessage(policy, m);
      && Marshals(MessageJson(m)) && Shrinks(Keyless(policy), MessageJson(m'), MessageJson(m))
      && Valid(m'.role) && (PartsBytes(m'.parts) <= MAX_BYTES ==> PartsAccepted(m'.parts, false))
      && (Keyless(policy) ==> |m'.role| + PartsBytes(m'.parts) <= 74 * Nodes(ReadValue(MessageJson(m))))
  {
    hide GoodPart, Shrinks, ItemsShrink, MembersShrink, MarshalsMembers, MarshalsItems, ReadMembers, NodesMembers,
         PartsAccepted, PartsJson, Enum, Valid, ReadValue, SanitizeParts, Keyless;
    var m', tight := SanitizeMessage(policy, m), Keyless(policy);
    EnumShort(policy, ROLES, m.role);
    ShortValid(m'.role);
    PartsShrink(policy, m.parts);
    StringField(tight, ROLE, m'.role, m.role);
    PartsField(tight, PartsJson(m'.parts), PartsJson(m.parts));
    var a, b := [Member(ROLE, JStr(m.role))], [Member(PARTS, JArr(PartsJson(m.parts)))];
    var a', b' := [Member(ROLE, JStr(m'.role))], [Member(PARTS, JArr(PartsJson(m'.parts)))];
    MembersShrinkSum(tight, a', a, b', b);
    assert a + b == [Member(ROLE, JStr(m.role)), Member(PARTS, JArr(PartsJson(m.parts)))];
    assert a' + b' == [Member(ROLE, JStr(m'.role)), Member(PARTS, JArr(PartsJson(m'.parts)))];
    MessageKeysDistinct(m);
    ObjectShrinks(tight, a' + b', a + b);
  }

  lemma MessageKeysDistinct(m: Message)
    requires MarshalsMembers([Member(ROLE, JStr(m.role)), Member(PARTS, JArr(PartsJson(m.parts)))])
    ensures DistinctKeys(ReadMembers([Member(ROLE, JStr(m.role)), Member(PARTS, JArr(PartsJson(m.parts)))]))
  {
    hide MarshalsMembers, ReadMembers, Valid, Escape;
    FieldKeys();
    KeysDiffer();
    var ms := [Member(ROLE, JStr(m.role)), Member(PARTS, JArr(PartsJson(m.parts)))];
    ReadKeys(ms);
    var r := ReadMembers(ms);
    assert KeyList(r)[0] == ROLE && KeyList(r)[1] == PARTS;
  }

  lemma PartsField(tight: bool, js': seq<Json>, js: seq<Json>)
    requires MarshalsItems(js) && ItemsShrink(tight, js', js)
    ensures MarshalsMembers([Member(PARTS, JArr(js))])
    ensures MembersShrink(tight, [Member(PARTS, JArr(js'))], [Member(PARTS, JArr(js))])
    ensures NodesMembers(ReadMembers([Member(PARTS, JArr(js))])) == 1 + NodesItems(CanonItems(ResolveItems(js)))
  {
    hide ItemsShrink, Marshals, MarshalsItems, Length, Nodes, Depth, Resolve, Canon, Escape, Valid, LengthMembers,
         NodesMembers, DepthMembers;
    PartsKey();
    ArrayShrinks(tight, js', js);
    if tight {
      ArrayTight(js', js);
    }
    ReadOne(Member(PARTS, JArr(js')));
    ReadOne(Member(PARTS, JArr(js)));
  }

  lemma ArrayTight(js': seq<Json>, js: seq<Json>)
    requires MarshalsItems(js) && ItemsShrink(true, js', js)
    ensures Marshals(JArr(js')) && Length(JArr(js'), true) <= 2 + COST * NodesItems(CanonItems(ResolveItems(js)))
  {
  }

  lemma PartsKey()
    ensures Valid(PARTS) && |Escape(PARTS, true)| <= 28
  {
    hide Valid, Escape;
    FieldKeys();
  }

  lemma {:induction false} MessagesShrink(policy: Policy, ms: seq<Message>)
    requires !policy.RawPolicy? && forall i :: 0 <= i < |ms| ==> GoodMessage(ms[i])
    ensures var ms' := SanitizeMessages(policy, ms);
      && MarshalsItems(MessagesJson(ms)) && ItemsShrink(Keyless(policy), MessagesJson(ms'), MessagesJson(ms))
      && (MessagesBytes(ms') <= MAX_BYTES ==> MessagesAccepted(ms', false)) && MessagesParts(ms') == MessagesParts(ms)
      && (Keyless(policy) ==> MessagesBytes(ms') <= 74 * NodesItems(CanonItems(ResolveItems(MessagesJson(ms)))))
  {
    hide GoodMessage, PartsAccepted, Shrinks, ItemsShrink, MessageJson, Nodes, ReadValue, MarshalsItems, Marshals,
         SanitizeParts, Enum, Valid, Keyless, MessagesAccepted, NodesItems, CanonItems, ResolveItems;
    if ms != [] {
      var m, rest := ms[0], ms[1..];
      MessageShrinks(policy, m);
      MessagesShrink(policy, rest);
      ItemsShrinkCons(Keyless(policy), MessageJson(SanitizeMessage(policy, m)), MessageJson(m),
                      MessagesJson(SanitizeMessages(policy, rest)), MessagesJson(rest));
      MessagesCons(SanitizeMessage(policy, m), SanitizeMessages(policy, rest));
    } else {
      NoItemsShrink(Keyless(policy));
      NoMessages();
    }
  }

  lemma MessagesCons(m: Message, rest: seq<Message>)
    ensures MessagesBytes([m] + rest) == |m.role| + PartsBytes(m.parts) + MessagesBytes(rest)
    ensures MessagesParts([m] + rest) == |m.parts| + MessagesParts(rest)
    ensures MessagesJson([m] + rest) == [MessageJson(m)] + MessagesJson(rest)
    ensures Valid(m.role) && PartsAccepted(m.parts, false) && MessagesAccepted(rest, false) ==>
              MessagesAccepted([m] + rest, false)
  {
    hide PartsAccepted, MessageJson, Valid, PartsBytes;
    DropTake([m], rest);
    if Valid(m.role) && PartsAccepted(m.parts, false) && MessagesAccepted(rest, false) {
      forall i | 0 <= i < |[m] + rest|
        ensures Valid(([m] + rest)[i].role) && PartsAccepted(([m] + rest)[i].parts, false)
      {
        if i > 0 {
          assert ([m] + rest)[i] == rest[i - 1];
        }
      }
    }
  }

  /** A channel that decodes still decodes when its items shrink, within the byte bound and
      only then; a tight fit never reaches the bound. */
  lemma ChannelShrinks(tight: bool, js': seq<Json>, js: seq<Json>)
    requires MarshalsItems(js) && ItemsShrink(tight, js', js) && ChannelDecodes(JArr(js))
    ensures Marshals(JArr(js')) && (ChannelDecodes(JArr(js')) <==> Length(JArr(js'), true) <= MAX_BYTES)
    ensures tight ==> Length(JArr(js'), true) <= MAX_BYTES
    ensures 74 * NodesItems(CanonItems(ResolveItems(js))) <= 74 * MAX_NODES
  {
    hide Text, Decode, Nodes, Depth, Resolve, Canon, ItemsShrink, Length, Marshals;
    ArrayShrinks(tight, js', js);
    DecodeOfText(JArr(js), true);
    DecodeOfText(JArr(js'), true);
    LengthIsTextLength(JArr(js'), true);
  }

  // ----- the parts an accepted channel holds

  lemma {:induction false} PartsAreGood(parts: seq<ContentPart>)
    requires PartsAccepted(parts, false) && MarshalsItems(PartsJson(parts))
    ensures forall i :: 0 <= i < |parts| ==> GoodPart(parts[i])
  {
    hide PartAccepted;
    if parts != [] {
      PartIsGood(parts[0]);
      assert PartsAccepted(parts[1..], false);
      PartsAreGood(parts[1..]);
      forall i | 0 <= i < |parts|
        ensures GoodPart(parts[i])
      {
        if i > 0 {
          assert parts[i] == parts[1..][i - 1];
        }
      }
    }
  }

  /** The only accepted parts that cannot be written are those with a present but empty response. */
  lemma EmptyResponsesCannotBeWritten(parts: seq<ContentPart>)
    requires PartsAccepted(parts, false)
    ensures Marshals(JArr(PartsJson(parts))) <==> forall i :: 0 <= i < |parts| ==> parts[i].response != Some([])
  {
    hide GoodPart, PartAccepted, ItemsShrink, PartsJson, Keyless, SanitizeParts, MarshalsItems, PartsBytes,
         PartsAccepted, NodesItems;
    GoodUnlessEmpty(parts);
    if forall i :: 0 <= i < |parts| ==> parts[i].response != Some([]) {
      PartsShrink(RedactPolicy({}), parts);
    }
    if MarshalsItems(PartsJson(parts)) {
      PartsAreGood(parts);
    }
  }

  lemma GoodUnlessEmpty(parts: seq<ContentPart>)
    requires PartsAccepted(parts, false)
    ensures forall i :: 0 <= i < |parts| ==> (GoodPart(parts[i]) <==> parts[i].response != Some([]))
  {
    hide PartAccepted;
  }

  /** An empty non-nil response has no encoding. */
  lemma PartIsGood(p: ContentPart)
    requires PartAccepted(p, false) && Marshals(PartJson(p))
    ensures GoodPart(p)
  {
    hide PartAccepted, Decode, Valid;
    var ms := PartFields(p);
    LastMarshals(ms);
    assert ms[|ms| - 1] == Member(RESPONSE, ResponseValue(p));
    EmptyRaw();
  }

  lemma EmptyRaw()
    ensures Parse([]) == None
  {
  }

  lemma {:induction false} LastMarshals(ms: seq<Member>)
    requires ms != [] && MarshalsMembers(ms)
    ensures Marshals(ms[|ms| - 1].value)
  {
    hide Marshals;
    if |ms| > 1 {
      LastMarshals(ms[1..]);
      assert ms[1..][|ms| - 2] == ms[|ms| - 1];
    }
  }

  lemma {:induction false} MessagesAreGood(ms: seq<Message>)
    requires MessagesAccepted(ms, false) && MarshalsItems(MessagesJson(ms))
    ensures forall i :: 0 <= i < |ms| ==> GoodMessage(ms[i])
  {
    hide PartsAccepted, Valid;
    if ms != [] {
      MessageMarshals(ms[0]);
      PartsAreGood(ms[0].parts);
      MessagesAreGood(ms[1..]);
      forall i | 0 <= i < |ms|
        ensures GoodMessage(ms[i])
      {
        if i > 0 {
          assert ms[i] == ms[1..][i - 1];
        }
      }
    }
  }

  lemma MessageMarshals(m: Message)
    requires Marshals(MessageJson(m))
    ensures MarshalsItems(PartsJson(m.parts))
  {
    var ms := MessageJson(m).members;
    LastMarshals(ms);
    assert ms[1].value == JArr(PartsJson(m.parts));
  }

  // ----- the theorem

  lemma InputImpliesPlain(parts: seq<ContentPart>)
    requires PartsAccepted(parts, true)
    ensures PartsAccepted(parts, false)
  {
    forall i | 0 <= i < |parts|
      ensures PartAccepted(parts[i], false)
    {
      assert PartAccepted(parts[i], true);
    }
  }

  lemma MessagesImplyPlain(ms: seq<Message>)
    requires MessagesAccepted(ms, true)
    ensures MessagesAccepted(ms, false)
  {
    forall i | 0 <= i < |ms|
      ensures Valid(ms[i].role) && PartsAccepted(ms[i].parts, false)
    {
      InputImpliesPlain(ms[i].parts);
    }
  }

  lemma ChannelDecodesNull()
    ensures ChannelDecodes(JNull)
  {
    hide Text, Decode;
    DecodeOfText(JNull, true);
    LengthIsTextLength(JNull, true);
  }

  /** A list of parts after sanitizing, with the bytes it may count. */
  lemma PartsChannel(policy: Policy, parts: seq<ContentPart>)
    requires !policy.RawPolicy? && PartsAccepted(parts, true)
    requires parts != [] ==> ChannelDecodes(JArr(PartsJson(parts)))
    ensures var parts' := SanitizeParts(policy, parts);
      && (PartsBytes(parts') <= MAX_BYTES ==> PartsAccepted(parts', false))
      && (parts' != [] ==>
            && Marshals(JArr(PartsJson(parts')))
            && (ChannelDecodes(JArr(PartsJson(parts'))) <==> Length(JArr(PartsJson(parts')), true) <= MAX_BYTES)
            && (Keyless(policy) ==> Length(JArr(PartsJson(parts')), true) <= MAX_BYTES))
      && (Keyless(policy) ==> PartsBytes(parts') <= 74 * MAX_NODES)
  {
    hide PartAccepted, GoodPart, Decode, Text, ItemsShrink, SanitizePart, Length, ChannelDecodes, Keyless;
    InputImpliesPlain(parts);
    if parts != [] {
      DecodesMarshals(PartsJson(parts));
      PartsAreGood(parts);
      PartsShrink(policy, parts);
      ChannelShrinks(Keyless(policy), PartsJson(SanitizeParts(policy, parts)), PartsJson(parts));
    } else {
      NoParts();
    }
  }

  lemma DecodesMarshals(js: seq<Json>)
    requires ChannelDecodes(JArr(js))
    ensures MarshalsItems(js)
  {
  }

  lemma MessagesChannel(policy: Policy, ms: seq<Message>)
    requires !policy.RawPolicy? && MessagesAccepted(ms, true)
    requires ms != [] ==> ChannelDecodes(JArr(MessagesJson(ms)))
    ensures var ms' := SanitizeMessages(policy, ms);
      && (MessagesBytes(ms') <= MAX_BYTES ==> MessagesAccepted(ms', false)) && MessagesParts(ms') == MessagesParts(ms)
      && (ms' != [] ==>
            && Marshals(JArr(MessagesJson(ms')))
            && (ChannelDecodes(JArr(MessagesJson(ms'))) <==> Length(JArr(MessagesJson(ms')), true) <= MAX_BYTES)
            && (Keyless(policy) ==> Length(JArr(MessagesJson(ms')), true) <= MAX_BYTES))
      && (Keyless(policy) ==> MessagesBytes(ms') <= 74 * MAX_NODES)
  {
    hide PartsAccepted, GoodMessage, Decode, Text, ItemsShrink, Valid, Length, ChannelDecodes, Keyless;
    MessagesImplyPlain(ms);
    if ms != [] {
      DecodesMarshals(MessagesJson(ms));
      MessagesAreGood(ms);
      MessagesShrink(policy, ms);
      ChannelShrinks(Keyless(policy), MessagesJson(SanitizeMessages(policy, ms)), MessagesJson(ms));
    } else {
      NoMessages();
    }
  }

  /** Bytes of a written channel. */
  function ChannelLength(p: Payload, c: Channel): nat
    requires Marshals(ChannelJson(p, c))
  {
    Length(ChannelJson(p, c), true)
  }

  /** The bytes that validation counts over a whole payload. */
  function CountedBytes(p: Payload): nat
  {
    PartsBytes(p.system) + MessagesBytes(p.input) + MessagesBytes(p.output)
  }

  /** What sanitizing leaves of one channel of an accepted payload. */
  lemma SafeChannel(policy: Policy, p: Payload, c: Channel)
    requires !policy.RawPolicy? && Accepted(p, true)
    ensures var safe := SanitizePayload(policy, p);
      && Marshals(ChannelJson(safe, c))
      && (ChannelDecodes(ChannelJson(safe, c)) <==> ChannelLength(safe, c) <= MAX_BYTES)
      && (Keyless(policy) ==> ChannelLength(safe, c) <= MAX_BYTES)
  {
    hide PartsAccepted, MessagesAccepted, ChannelDecodes, PartsJson, MessagesJson, Keyless;
    assert ChannelDecodes(ChannelJson(p, c));
    ChannelDecodesNull();
    match c {
      case SystemInstructions => PartsChannel(policy, p.system);
      case InputMessages => MessagesChannel(policy, p.input);
      case OutputMessages => MessagesChannel(policy, p.output);
    }
  }

  /** What it leaves of the counts. */
  lemma SafeCounts(policy: Policy, p: Payload)
    requires !policy.RawPolicy? && Accepted(p, true)
    ensures var safe := SanitizePayload(policy, p);
      && (CountedBytes(safe) <= MAX_BYTES ==>
            PartsAccepted(safe.system, false) && MessagesAccepted(safe.input, false)
              && MessagesAccepted(safe.output, false))
      && MessagesParts(safe.input) == MessagesParts(p.input) && MessagesParts(safe.output) == MessagesParts(p.output)
      && (Keyless(policy) ==> CountedBytes(safe) <= MAX_BYTES)
  {
    hide PartsAccepted, MessagesAccepted, ChannelDecodes, PartsJson, MessagesJson, Keyless, PartsBytes, MessagesBytes;
    assert ChannelDecodes(ChannelJson(p, SystemInstructions));
    assert ChannelDecodes(ChannelJson(p, InputMessages));
    assert ChannelDecodes(ChannelJson(p, OutputMessages));
    PartsChannel(policy, p.system);
    MessagesChannel(policy, p.input);
    MessagesChannel(policy, p.output);
    assert 3 * (74 * MAX_NODES) <= MAX_BYTES;
  }

  /** The bytes of a sanitized payload stay within the bounds. */
  ghost predicate BytesFit(safe: Payload)
    requires forall c :: Marshals(ChannelJson(safe, c))
  {
    CountedBytes(safe) <= MAX_BYTES && forall c :: ChannelLength(safe, c) <= MAX_BYTES
  }

  /** After sanitizing, the second validation can fail on bytes alone. */
  lemma SecondValidation(policy: Policy, p: Payload)
    requires !policy.RawPolicy? && Accepted(p, true)
    ensures var safe := SanitizePayload(policy, p);
      && (forall c :: Marshals(ChannelJson(safe, c)))
      && (Accepted(safe, false) <==> BytesFit(safe))
  {
    hide PartsAccepted, MessagesAccepted, ChannelDecodes, ChannelJson, ChannelLength, Keyless, PartsBytes,
         MessagesBytes;
    var safe := SanitizePayload(policy, p);
    SafeCounts(policy, p);
    forall c: Channel
      ensures Marshals(ChannelJson(safe, c))
      ensures ChannelDecodes(ChannelJson(safe, c)) <==> ChannelLength(safe, c) <= MAX_BYTES
    {
      SafeChannel(policy, p, c);
    }
  }

  /** Hashing, or redacting with no schema keys, keeps every accepted payload acceptable:
      the 74 bytes a node may cost leave three full channels below the byte bound. */
  lemma SanitizingStaysInBudget(policy: Policy, p: Payload)
    requires Keyless(policy) && Accepted(p, true)
    ensures Accepted(SanitizePayload(policy, p), false)
  {
    hide Accepted, SanitizePayload, ChannelJson, ChannelLength, CountedBytes;
    var safe := SanitizePayload(policy, p);
    SecondValidation(policy, p);
    SafeCounts(policy, p);
    forall c: Channel
      ensures ChannelLength(safe, c) <= MAX_BYTES
    {
      SafeChannel(policy, p, c);
    }
  }

  /** The raw policy changes nothing, so what was accepted stays accepted. */
  lemma {:induction false} RawParts(parts: seq<ContentPart>)
    ensures SanitizeParts(RawPolicy, parts) == parts
  {
    if parts != [] {
      RawParts(parts[1..]);
      assert SanitizePart(RawPolicy, parts[0]) == parts[0];
    }
  }

  lemma {:induction false} RawMessages(ms: seq<Message>)
    ensures SanitizeMessages(RawPolicy, ms) == ms
  {
    if ms != [] {
      RawParts(ms[0].parts);
      RawMessages(ms[1..]);
      assert SanitizeMessage(RawPolicy, ms[0]) == ms[0];
    }
  }

  lemma RawStaysInBudget(p: Payload)
    requires Accepted(p, true)
    ensures SanitizePayload(RawPolicy, p) == p && Accepted(p, false)
  {
    hide ChannelDecodes;
    RawParts(p.system);
    RawMessages(p.input);
    RawMessages(p.output);
    InputImpliesPlain(p.system);
    MessagesImplyPlain(p.input);
    MessagesImplyPlain(p.output);
  }

  /** A channel that validation accepted always encodes within a valid limit. */
  lemma ChannelEncodes(p: Payload, c: Channel, limit: int)
    requires |BoundedJson.MARKER| <= limit && ChannelDecodes(ChannelJson(p, c))
    ensures ChannelAttributes(p, c, limit).Some?
  {
    hide Text, Decode, BoundedJson.LongestArray, PartsJson, MessagesJson;
    var v := ChannelJson(p, c);
    DecodeOfText(v, true);
    var read := Decode(Text(v, true)).value;
    assert v.JNull? || v.JArr?;
    assert read.JNull? || read.JArr?;
  }

  /** A payload that passed validation always encodes within a valid limit. */
  lemma AcceptedEncodes(p: Payload, limit: int)
    requires |BoundedJson.MARKER| <= limit && Accepted(p, false)
    ensures ChannelsAttributes(p, CHANNELS, limit).Some?
  {
    hide PartsAccepted, MessagesAccepted, ChannelAttributes, ChannelDecodes, ChannelJson;
    ChannelsEncode(p, CHANNELS, limit);
  }

  lemma {:induction false} ChannelsEncode(p: Payload, cs: seq<Channel>, limit: int)
    requires |BoundedJson.MARKER| <= limit && forall c :: ChannelDecodes(ChannelJson(p, c))
    ensures ChannelsAttributes(p, cs, limit).Some?
  {
    hide ChannelAttributes, ChannelDecodes, ChannelJson;
    if cs != [] {
      assert ChannelDecodes(ChannelJson(p, cs[0]));
      ChannelEncodes(p, cs[0], limit);
      ChannelsEncode(p, cs[1..], limit);
    }
  }
}
