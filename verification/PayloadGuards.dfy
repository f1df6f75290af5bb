/** Exactly when a sanitized payload passes the second validation, measured on the payload
    before it is sanitized. Kept schema keys are the only way to fail it. */
module PayloadGuards {
  import opened Bytes
  import opened Utf8
  import opened JsonText
  import opened JsonStrings
  import opened JsonTree
  import opened JsonDepth
  import opened JsonDecode
  import opened JsonLength
  import opened Sanitize
  import opened Payload
  import opened PayloadWire
  import opened PayloadBounds
  import BoundedJson

  // ----- how many bytes sanitizing will write

  /** Bytes of a protected text. */
  function LeafBytes(policy: Policy): nat
  {
    if policy.RedactPolicy? then |REDACTED| else |FINGERPRINT| + 64
  }

  /** Bytes of the text that replaces a decoded value. */
  function SafeLength(policy: Policy, v: Json): nat
  {
    match v
    case JArr(items) => if items == [] then 2 else 1 + SafeItems(policy, items)
    case JObj(members) =>
      if !KeysWithin(members, KeysOf(policy)) then LeafBytes(policy) + 2
      else if members == [] then 2 else 1 + SafeMembers(policy, members)
    case _ => LeafBytes(policy) + 2
  }

  function SafeItems(policy: Policy, items: seq<Json>): nat
  {
    if items == [] then 0 else SafeLength(policy, items[0]) + 1 + SafeItems(policy, items[1..])
  }

  function SafeMembers(policy: Policy, ms: seq<Member>): nat
  {
    if ms == [] then 0
    else |Escape(ms[0].key, true)| + 4 + SafeLength(policy, ms[0].value) + SafeMembers(policy, ms[1..])
  }

  /** Bytes of the text that replaces raw JSON. */
  function SafeRaw(policy: Policy, raw: Bytes): nat
  {
    if raw == [] then 0
    else
      match Decode(raw)
      case Err(_) => |REDACTED_JSON|
      case Ok(v) => SafeLength(policy, v)
  }

  function SafeText(policy: Policy, s: Bytes): nat { if s == [] then 0 else LeafBytes(policy) }

  function SafeEnum(policy: Policy, vocabulary: set<Bytes>, s: Bytes): nat
  {
    if s in vocabulary then |s| else SafeText(policy, s)
  }

  /** The bytes validation will count for a part. */
  function SafePartBytes(policy: Policy, p: ContentPart): nat
  {
    SafeEnum(policy, KINDS, p.kind) + SafeText(policy, p.content) + SafeText(policy, p.id) + SafeText(policy, p.name)
    + SafeRaw(policy, p.arguments) + if p.response.None? then 0 else SafeRaw(policy, p.response.value)
  }

  function SafePartsBytes(policy: Policy, parts: seq<ContentPart>): nat
  {
    if parts == [] then 0 else SafePartBytes(policy, parts[0]) + SafePartsBytes(policy, parts[1..])
  }

  function SafeMessagesBytes(policy: Policy, ms: seq<Message>): nat
  {
    if ms == [] then 0
    else SafeEnum(policy, ROLES, ms[0].role) + SafePartsBytes(policy, ms[0].parts) + SafeMessagesBytes(policy, ms[1..])
  }

  /** A member with its quotes, colon and separator. */
  function MemberBytes(key: Bytes, value: nat): nat { |key| + 4 + value }

  /** The bytes a part will take in its channel. */
  function SafePart(policy: Policy, p: ContentPart): nat
  {
    1 + MemberBytes(TYPE, SafeEnum(policy, KINDS, p.kind) + 2)
    + MemberBytes(CONTENT, SafeText(policy, p.content) + 2)
    + (if p.id == [] then 0 else MemberBytes(ID, SafeText(policy, p.id) + 2))
    + MemberBytes(NAME, SafeText(policy, p.name) + 2)
    + (if p.arguments == [] then 0 else MemberBytes(ARGUMENTS, SafeRaw(policy, p.arguments)))
    + MemberBytes(RESPONSE, if p.response.None? then 4 else SafeRaw(policy, p.response.value))
  }

  function SafeParts(policy: Policy, parts: seq<ContentPart>): nat
  {
    if parts == [] then 0 else SafePart(policy, parts[0]) + 1 + SafeParts(policy, parts[1..])
  }

  function SafeMessage(policy: Policy, m: Message): nat
  {
    1 + MemberBytes(ROLE, SafeEnum(policy, ROLES, m.role) + 2)
    + MemberBytes(PARTS, if m.parts == [] then 2 else 1 + SafeParts(policy, m.parts))
  }

  function SafeMessages(policy: Policy, ms: seq<Message>): nat
  {
    if ms == [] then 0 else SafeMessage(policy, ms[0]) + 1 + SafeMessages(policy, ms[1..])
  }

  /** The bytes a channel will take; an empty channel is written as null. */
  function SafeChannelBytes(policy: Policy, p: Payload, c: Channel): nat
  {
    match c
    case SystemInstructions => if p.system == [] then 4 else 1 + SafeParts(policy, p.system)
    case InputMessages => if p.input == [] then 4 else 1 + SafeMessages(policy, p.input)
    case OutputMessages => if p.output == [] then 4 else 1 + SafeMessages(policy, p.output)
  }

  /** The two byte guards of the second validation. The first also bounds each raw text. */
  ghost predicate ByteGuards(policy: Policy, p: Payload)
  {
    && SafePartsBytes(policy, p.system) + SafeMessagesBytes(policy, p.input) + SafeMessagesBytes(policy, p.output) <=
      MAX_BYTES
    && forall c: Channel :: SafeChannelBytes(policy, p, c) <= MAX_BYTES
  }

  // ----- the counts are exact

  lemma LeafLength(policy: Policy, v: Json)
    requires !policy.RawPolicy?
    ensures var r := JStr(LeafOf(policy)(v)); Marshals(r) && Length(r, true) == LeafBytes(policy) + 2
  {
    LeafShort(policy);
    EscapePlain(LeafOf(policy)(v), true);
  }

  lemma {:induction false} SafeLengthExact(policy: Policy, v: Json)
    requires !policy.RawPolicy? && WellFormed(v)
    ensures var r := SanitizeValue(v, LeafOf(policy), KeysOf(policy));
      Marshals(r) && Length(r, true) == SafeLength(policy, v)
    decreases v, 1
  {
    hide LeafOf, KeysOf, LeafBytes, KeysWithin;
    match v {
      case JArr(items) => SafeItemsExact(policy, items);
      case JObj(members) =>
        if KeysWithin(members, KeysOf(policy)) {
          SafeMembersExact(policy, members);
        } else {
          LeafLength(policy, v);
        }
      case _ => LeafLength(policy, v);
    }
  }

  lemma {:induction false} SafeItemsExact(policy: Policy, items: seq<Json>)
    requires !policy.RawPolicy? && WellFormedItems(items)
    ensures var r := SanitizeItems(items, LeafOf(policy), KeysOf(policy));
      MarshalsItems(r) && LengthItems(r, true) == SafeItems(policy, items)
    decreases items, 0
  {
    hide LeafOf, KeysOf, SanitizeValue, SafeLength, Marshals, Length, WellFormed;
    if items != [] {
      SafeLengthExact(policy, items[0]);
      SafeItemsExact(policy, items[1..]);
      var r := SanitizeItems(items, LeafOf(policy), KeysOf(policy));
      assert r[1..] == SanitizeItems(items[1..], LeafOf(policy), KeysOf(policy));
    }
  }

  lemma {:induction false} SafeMembersExact(policy: Policy, ms: seq<Member>)
    requires !policy.RawPolicy? && WellFormedMembers(ms)
    ensures var r := SanitizeMembers(ms, LeafOf(policy), KeysOf(policy));
      MarshalsMembers(r) && LengthMembers(r, true) == SafeMembers(policy, ms)
    decreases ms, 0
  {
    hide LeafOf, KeysOf, SanitizeValue, SafeLength, Marshals, Length, WellFormed, Escape;
    if ms != [] {
      SafeLengthExact(policy, ms[0].value);
      SafeMembersExact(policy, ms[1..]);
      var r := SanitizeMembers(ms, LeafOf(policy), KeysOf(policy));
      assert r[1..] == SanitizeMembers(ms[1..], LeafOf(policy), KeysOf(policy));
    }
  }

  lemma SafeRawExact(policy: Policy, raw: Bytes)
    requires !policy.RawPolicy?
    ensures |SanitizeRaw(policy, raw)| == SafeRaw(policy, raw)
  {
    hide Decode, Text, Length, SafeLength, SanitizeValue, Marshals;
    if raw != [] && Decode(raw).Ok? {
      var v := Decode(raw).value;
      DecodeSound(raw);
      SafeLengthExact(policy, v);
      LengthIsTextLength(SanitizeValue(v, LeafOf(policy), KeysOf(policy)), true);
    }
  }

  lemma SafeTextExact(policy: Policy, s: Bytes)
    requires !policy.RawPolicy?
    ensures |Label(policy, s)| == SafeText(policy, s) && PlainText(Label(policy, s))
  {
    LabelShort(policy, s);
  }

  lemma SafeEnumExact(policy: Policy, vocabulary: set<Bytes>, s: Bytes)
    requires !policy.RawPolicy? && (vocabulary == KINDS || vocabulary == ROLES)
    ensures |Enum(policy, vocabulary, s)| == SafeEnum(policy, vocabulary, s) && PlainText(Enum(policy, vocabulary, s))
  {
    hide Label, SafeText;
    EnumShort(policy, vocabulary, s);
    SafeTextExact(policy, s);
    if s == [] {
      NothingStays(policy);
    }
  }

  lemma NothingStays(policy: Policy)
    ensures Label(policy, []) == [] && SafeText(policy, []) == 0
  {
  }

  lemma SafePartBytesExact(policy: Policy, p: ContentPart)
    requires !policy.RawPolicy?
    ensures PartBytes(SanitizePart(policy, p)) == SafePartBytes(policy, p)
  {
    hide Label, Enum, SanitizeRaw, SafeText, SafeEnum, SafeRaw;
    SafeEnumExact(policy, KINDS, p.kind);
    SafeTextExact(policy, p.content);
    SafeTextExact(policy, p.id);
    SafeTextExact(policy, p.name);
    SafeRawExact(policy, p.arguments);
    if p.response.Some? {
      SafeRawExact(policy, p.response.value);
    }
  }

  lemma {:induction false} SafePartsBytesExact(policy: Policy, parts: seq<ContentPart>)
    requires !policy.RawPolicy?
    ensures PartsBytes(SanitizeParts(policy, parts)) == SafePartsBytes(policy, parts)
  {
    hide PartBytes, SanitizePart, SafePartBytes;
    if parts != [] {
      SafePartBytesExact(policy, parts[0]);
      SafePartsBytesExact(policy, parts[1..]);
      PartsCons(SanitizePart(policy, parts[0]), SanitizeParts(policy, parts[1..]));
    }
  }

  lemma {:induction false} SafeMessagesBytesExact(policy: Policy, ms: seq<Message>)
    requires !policy.RawPolicy?
    ensures MessagesBytes(SanitizeMessages(policy, ms)) == SafeMessagesBytes(policy, ms)
  {
    hide PartsBytes, SanitizeParts, SafePartsBytes, Enum, SafeEnum;
    if ms != [] {
      SafeEnumExact(policy, ROLES, ms[0].role);
      SafePartsBytesExact(policy, ms[0].parts);
      SafeMessagesBytesExact(policy, ms[1..]);
      MessagesCons(SanitizeMessage(policy, ms[0]), SanitizeMessages(policy, ms[1..]));
    }
  }

  // ----- one part on the wire

  lemma FieldLength(key: Bytes, v: Json)
    requires key in {TYPE, CONTENT, ID, NAME, ARGUMENTS, RESPONSE, ROLE, PARTS} && Marshals(v)
    ensures MarshalsMembers([Member(key, v)])
    ensures LengthMembers([Member(key, v)], true) == MemberBytes(key, Length(v, true))
    ensures NodesMembers(ReadMembers([Member(key, v)])) == Nodes(ReadValue(v))
    ensures DepthMembers(ResolveMembers([Member(key, v)])) == Depth(Resolve(v))
  {
    hide Marshals, Length, Nodes, Depth, Resolve, ReadValue, Escape, Valid;
    FieldKey(key);
    ReadOne(Member(key, v));
  }

  lemma OptionalLength(key: Bytes, present: bool, v: Json)
    requires key in {TYPE, CONTENT, ID, NAME, ARGUMENTS, RESPONSE, ROLE, PARTS} && (present ==> Marshals(v))
    ensures var ms := Optional(key, present, v);
      && MarshalsMembers(ms)
      && LengthMembers(ms, true) == (if present then MemberBytes(key, Length(v, true)) else 0)
      && NodesMembers(ReadMembers(ms)) == (if present then Nodes(ReadValue(v)) else 0)
      && DepthMembers(ResolveMembers(ms)) == (if present then Depth(Resolve(v)) else 0)
  {
    hide Marshals, Length, Nodes, Depth, Resolve, ReadValue, MemberBytes;
    if present {
      FieldLength(key, v);
    }
  }

  lemma FieldsSum(a: seq<Member>, b: seq<Member>)
    requires MarshalsMembers(a) && MarshalsMembers(b)
    ensures MarshalsMembers(a + b)
    ensures LengthMembers(a + b, true) == LengthMembers(a, true) + LengthMembers(b, true)
    ensures NodesMembers(ReadMembers(a + b)) == NodesMembers(ReadMembers(a)) + NodesMembers(ReadMembers(b))
    ensures DepthMembers(ResolveMembers(a + b)) == Max(DepthMembers(ResolveMembers(a)), DepthMembers(ResolveMembers(b)))
  {
    hide MarshalsMembers, ReadMembers, ResolveMembers, LengthMembers, NodesMembers, DepthMembers, Max;
    ReadConcat(a, b);
    MeasuresConcat(ReadMembers(a), ReadMembers(b));
    MeasuresConcat(ResolveMembers(a), ResolveMembers(b));
  }

  /** The raw texts of a part can be written. */
  predicate RawsMarshal(p: ContentPart) {
    (p.arguments != [] ==> Marshals(JRaw(p.arguments))) && Marshals(ResponseValue(p))
  }

  function PartLength(p: ContentPart): nat
    requires RawsMarshal(p)
  {
    1 + MemberBytes(TYPE, |Escape(p.kind, true)| + 2)
    + MemberBytes(CONTENT, |Escape(p.content, true)| + 2)
    + (if p.id == [] then 0 else MemberBytes(ID, |Escape(p.id, true)| + 2))
    + MemberBytes(NAME, |Escape(p.name, true)| + 2)
    + (if p.arguments == [] then 0 else MemberBytes(ARGUMENTS, Length(JRaw(p.arguments), true)))
    + MemberBytes(RESPONSE, Length(ResponseValue(p), true))
  }

  /** The measures of a part are those of its fields. */
  lemma PartMeasures(p: ContentPart)
    requires RawsMarshal(p)
    ensures Marshals(PartJson(p)) && Length(PartJson(p), true) == PartLength(p)
    ensures Nodes(ReadValue(PartJson(p))) <=
              5 + (if p.arguments == [] then 0 else Nodes(ReadValue(JRaw(p.arguments))))
                + Nodes(ReadValue(ResponseValue(p)))
    ensures Depth(Resolve(PartJson(p))) ==
              1 + Max(if p.arguments == [] then 0 else Depth(Resolve(JRaw(p.arguments))),
                      Depth(Resolve(ResponseValue(p))))
  {
    hide MarshalsMembers, ReadMembers, NodesMembers, LengthMembers, DepthMembers, ResolveMembers, Optional, MemberBytes,
         ReadValue, Resolve, ResponseValue, Escape;
    var a1 := [Member(TYPE, JStr(p.kind))];
    var a2 := [Member(CONTENT, JStr(p.content))];
    var a3 := Optional(ID, p.id != [], JStr(p.id));
    var a4 := [Member(NAME, JStr(p.name))];
    var a5 := Optional(ARGUMENTS, p.arguments != [], JRaw(p.arguments));
    var a6 := [Member(RESPONSE, ResponseValue(p))];
    StringNode(p.kind);
    StringNode(p.content);
    StringNode(p.id);
    StringNode(p.name);
    FieldLength(TYPE, JStr(p.kind));
    FieldLength(CONTENT, JStr(p.content));
    OptionalLength(ID, p.id != [], JStr(p.id));
    FieldLength(NAME, JStr(p.name));
    OptionalLength(ARGUMENTS, p.arguments != [], JRaw(p.arguments));
    FieldLength(RESPONSE, ResponseValue(p));
    FieldsSum(a1, a2);
    FieldsSum(a1 + a2, a3);
    FieldsSum(a1 + a2 + a3, a4);
    FieldsSum(a1 + a2 + a3 + a4, a5);
    FieldsSum(a1 + a2 + a3 + a4 + a5, a6);
    PartFieldList(p);
    ObjectMeasures(PartFields(p));
  }

  lemma PartFieldList(p: ContentPart)
    ensures PartFields(p) ==
      [Member(TYPE, JStr(p.kind))] + [Member(CONTENT, JStr(p.content))] + Optional(ID, p.id != [], JStr(p.id))
      + [Member(NAME, JStr(p.name))] + Optional(ARGUMENTS, p.arguments != [], JRaw(p.arguments))
      + [Member(RESPONSE, ResponseValue(p))]
  {
    hide Optional;
    assert [Member(TYPE, JStr(p.kind))] + [Member(CONTENT, JStr(p.content))]
        == [Member(TYPE, JStr(p.kind)), Member(CONTENT, JStr(p.content))];
  }

  lemma ObjectMeasures(ms: seq<Member>)
    requires ms != [] && MarshalsMembers(ms)
    ensures Marshals(JObj(ms)) && Length(JObj(ms), true) == 1 + LengthMembers(ms, true)
    ensures Nodes(ReadValue(JObj(ms))) <= 1 + NodesMembers(ReadMembers(ms))
    ensures Depth(Resolve(JObj(ms))) == 1 + DepthMembers(ResolveMembers(ms))
  {
    hide MarshalsMembers, ReadMembers, ResolveMembers, LengthMembers, NodesMembers, DepthMembers;
    ReadObject(ms);
  }

  lemma StringNode(s: Bytes)
    ensures Marshals(JStr(s)) && Length(JStr(s), true) == |Escape(s, true)| + 2
    ensures Nodes(ReadValue(JStr(s))) == 1 && Depth(Resolve(JStr(s))) == 0
  {
  }

  /** A sanitized raw text is embedded unchanged. */
  lemma SafeRawWire(policy: Policy, raw: Bytes)
    requires !policy.RawPolicy? && raw != [] && Decode(raw).Ok?
    ensures var raw' := SanitizeRaw(policy, raw);
      raw' != [] && Marshals(JRaw(raw')) && Length(JRaw(raw'), true) == SafeRaw(policy, raw)
  {
    hide Decode, SanitizeRaw, SafeRaw, Shrinks, Length, Marshals;
    RawShrinks(policy, raw);
    SafeRawExact(policy, raw);
    ShrinksMarshals(Keyless(policy), JRaw(SanitizeRaw(policy, raw)), JRaw(raw));
  }

  lemma ShrinksMarshals(tight: bool, j': Json, j: Json)
    requires Marshals(j) && Shrinks(tight, j', j)
    ensures Marshals(j')
  {
  }

  lemma SafeResponse(policy: Policy, p: ContentPart)
    requires !policy.RawPolicy? && GoodPart(p)
    ensures var v := ResponseValue(SanitizePart(policy, p));
      Marshals(v) && Length(v, true) == if p.response.None? then 4 else SafeRaw(policy, p.response.value)
  {
    hide Decode, SanitizeRaw, SafeRaw;
    if p.response.Some? {
      SafeRawWire(policy, p.response.value);
    }
  }

  /** The strings of a sanitized part. */
  lemma SafeStrings(policy: Policy, p: ContentPart)
    requires !policy.RawPolicy?
    ensures var p' := SanitizePart(policy, p);
      && |Escape(p'.kind, true)| == SafeEnum(policy, KINDS, p.kind)
      && |Escape(p'.content, true)| == SafeText(policy, p.content)
      && |Escape(p'.id, true)| == SafeText(policy, p.id) && (p'.id == [] <==> p.id == [])
      && |Escape(p'.name, true)| == SafeText(policy, p.name)
  {
    hide SanitizeRaw, Label, Enum, SafeText, SafeEnum, Escape, PlainText;
    SafeEnumExact(policy, KINDS, p.kind);
    SafeTextExact(policy, p.content);
    SafeTextExact(policy, p.id);
    SafeTextExact(policy, p.name);
    LabelShort(policy, p.id);
    EscapePlain(Enum(policy, KINDS, p.kind), true);
    EscapePlain(Label(policy, p.content), true);
    EscapePlain(Label(policy, p.id), true);
    EscapePlain(Label(policy, p.name), true);
  }

  /** Its raw texts. */
  lemma SafeRaws(policy: Policy, p: ContentPart)
    requires !policy.RawPolicy? && GoodPart(p)
    ensures var p' := SanitizePart(policy, p);
      && RawsMarshal(p') && (p'.arguments == [] <==> p.arguments == [])
      && (p.arguments != [] ==> Length(JRaw(p'.arguments), true) == SafeRaw(policy, p.arguments))
      && Length(ResponseValue(p'), true) == if p.response.None? then 4 else SafeRaw(policy, p.response.value)
  {
    hide Decode, SanitizeRaw, SafeRaw, Label, Enum, Length, ResponseValue, Marshals, Valid, Inline;
    if p.arguments != [] {
      SafeRawWire(policy, p.arguments);
    } else {
      EmptyStays(policy);
    }
    SafeResponse(policy, p);
  }

  lemma SafePartExact(policy: Policy, p: ContentPart)
    requires !policy.RawPolicy? && GoodPart(p)
    ensures var p' := SanitizePart(policy, p);
      Marshals(PartJson(p')) && Length(PartJson(p'), true) == SafePart(policy, p)
  {
    hide SanitizePart, GoodPart, SafeRaw, SafeText, SafeEnum, MemberBytes, Escape, PartJson, ResponseValue, Length,
         RawsMarshal, Marshals;
    SafeStrings(policy, p);
    SafeRaws(policy, p);
    PartMeasures(SanitizePart(policy, p));
  }

  lemma EmptyStays(policy: Policy)
    ensures SanitizeRaw(policy, []) == []
  {
  }

  lemma ItemsLength(j: Json, js: seq<Json>)
    requires Marshals(j) && MarshalsItems(js)
    ensures MarshalsItems([j] + js) && LengthItems([j] + js, true) == Length(j, true) + 1 + LengthItems(js, true)
  {
    hide Marshals, Length;
    DropTake([j], js);
  }

  lemma {:induction false} SafePartsExact(policy: Policy, parts: seq<ContentPart>)
    requires !policy.RawPolicy? && forall i :: 0 <= i < |parts| ==> GoodPart(parts[i])
    ensures var js := PartsJson(SanitizeParts(policy, parts));
      MarshalsItems(js) && LengthItems(js, true) == SafeParts(policy, parts)
  {
    hide GoodPart, SanitizePart, SafePart, PartJson, Marshals, Length;
    if parts != [] {
      SafePartExact(policy, parts[0]);
      SafePartsExact(policy, parts[1..]);
      var rest := SanitizeParts(policy, parts[1..]);
      PartsCons(SanitizePart(policy, parts[0]), rest);
      ItemsLength(PartJson(SanitizePart(policy, parts[0])), PartsJson(rest));
    }
  }

  lemma MessageLength(m: Message)
    requires MarshalsItems(PartsJson(m.parts))
    ensures Marshals(MessageJson(m)) && Marshals(JArr(PartsJson(m.parts)))
    ensures Length(MessageJson(m), true)
         == 1 + MemberBytes(ROLE, |Escape(m.role, true)| + 2)
           + MemberBytes(PARTS, Length(JArr(PartsJson(m.parts)), true))
  {
    hide PartsJson, MemberBytes, Escape, MarshalsMembers, LengthMembers, MarshalsItems, Length, Marshals, NodesMembers,
         DepthMembers, ReadMembers, ResolveMembers, ReadValue, Resolve, Nodes, Depth;
    ArrayMarshals(PartsJson(m.parts));
    var a, b := [Member(ROLE, JStr(m.role))], [Member(PARTS, JArr(PartsJson(m.parts)))];
    StringNode(m.role);
    FieldLength(ROLE, JStr(m.role));
    FieldLength(PARTS, JArr(PartsJson(m.parts)));
    FieldsSum(a, b);
    assert a + b == [Member(ROLE, JStr(m.role)), Member(PARTS, JArr(PartsJson(m.parts)))];
    ObjectMeasures(a + b);
  }

  lemma ArrayMarshals(js: seq<Json>)
    requires MarshalsItems(js)
    ensures Marshals(JArr(js))
  {
  }

  lemma SafeMessageExact(policy: Policy, m: Message)
    requires !policy.RawPolicy? && GoodMessage(m)
    ensures var m' := SanitizeMessage(policy, m);
      Marshals(MessageJson(m')) && Length(MessageJson(m'), true) == SafeMessage(policy, m)
  {
    hide GoodPart, SanitizeParts, SafeParts, PartsJson, Enum, SafeEnum, MemberBytes, Escape, MarshalsItems, LengthItems,
         Valid, MessageJson;
    var m' := SanitizeMessage(policy, m);
    SafeEnumExact(policy, ROLES, m.role);
    EscapePlain(m'.role, true);
    SafePartsExact(policy, m.parts);
    PartsJsonEmpty(m'.parts);
    MessageLength(m');
  }

  lemma PartsJsonEmpty(parts: seq<ContentPart>)
    ensures PartsJson(parts) == [] <==> parts == []
  {
  }

  lemma {:induction false} SafeMessagesExact(policy: Policy, ms: seq<Message>)
    requires !policy.RawPolicy? && forall i :: 0 <= i < |ms| ==> GoodMessage(ms[i])
    ensures var js := MessagesJson(SanitizeMessages(policy, ms));
      MarshalsItems(js) && LengthItems(js, true) == SafeMessages(policy, ms)
  {
    hide GoodMessage, SanitizeMessage, SafeMessage, MessageJson, Marshals, Length;
    if ms != [] {
      SafeMessageExact(policy, ms[0]);
      SafeMessagesExact(policy, ms[1..]);
      var rest := SanitizeMessages(policy, ms[1..]);
      MessagesCons(SanitizeMessage(policy, ms[0]), rest);
      ItemsLength(MessageJson(SanitizeMessage(policy, ms[0])), MessagesJson(rest));
    }
  }

  // ----- the theorem

  lemma SafePartsChannel(policy: Policy, parts: seq<ContentPart>)
    requires !policy.RawPolicy? && parts != [] && PartsAccepted(parts, true) && ChannelDecodes(JArr(PartsJson(parts)))
    ensures var v := JArr(PartsJson(SanitizeParts(policy, parts)));
      Marshals(v) && Length(v, true) == 1 + SafeParts(policy, parts)
  {
    hide PartAccepted, GoodPart, SanitizeParts, PartsJson, SafeParts, ChannelDecodes;
    InputImpliesPlain(parts);
    DecodesMarshals(PartsJson(parts));
    PartsAreGood(parts);
    SafePartsExact(policy, parts);
  }

  lemma SafeMessagesChannel(policy: Policy, ms: seq<Message>)
    requires !policy.RawPolicy? && ms != [] && MessagesAccepted(ms, true) && ChannelDecodes(JArr(MessagesJson(ms)))
    ensures var v := JArr(MessagesJson(SanitizeMessages(policy, ms)));
      Marshals(v) && Length(v, true) == 1 + SafeMessages(policy, ms)
  {
    hide PartsAccepted, GoodMessage, SanitizeMessages, MessagesJson, SafeMessages, ChannelDecodes, Valid;
    MessagesImplyPlain(ms);
    DecodesMarshals(MessagesJson(ms));
    MessagesAreGood(ms);
    SafeMessagesExact(policy, ms);
  }

  lemma SafeChannelExact(policy: Policy, p: Payload, c: Channel)
    requires !policy.RawPolicy? && Accepted(p, true)
    ensures var safe := SanitizePayload(policy, p);
      Marshals(ChannelJson(safe, c)) && ChannelLength(safe, c) == SafeChannelBytes(policy, p, c)
  {
    hide PartsAccepted, MessagesAccepted, ChannelDecodes, PartsJson, MessagesJson, SafeParts, SafeMessages, Marshals,
         Length, SanitizeParts, SanitizeMessages, PartsBytes, MessagesBytes;
    NullMeasures();
    assert ChannelDecodes(ChannelJson(p, c));
    match c {
      case SystemInstructions =>
        if p.system != [] {
          SafePartsChannel(policy, p.system);
        }
      case InputMessages =>
        if p.input != [] {
          SafeMessagesChannel(policy, p.input);
        }
      case OutputMessages =>
        if p.output != [] {
          SafeMessagesChannel(policy, p.output);
        }
    }
  }

  /** What sanitizing will write is what its result holds. */
  lemma GuardsAreBytes(policy: Policy, p: Payload)
    requires !policy.RawPolicy? && Accepted(p, true)
    ensures var safe := SanitizePayload(policy, p);
      (forall c :: Marshals(ChannelJson(safe, c))) && (BytesFit(safe) <==> ByteGuards(policy, p))
  {
    hide Accepted, SafeChannelBytes, ChannelJson, ChannelLength, SafePartsBytes, SafeMessagesBytes, PartsBytes,
         MessagesBytes, SanitizeParts, SanitizeMessages;
    var safe := SanitizePayload(policy, p);
    SafePartsBytesExact(policy, p.system);
    SafeMessagesBytesExact(policy, p.input);
    SafeMessagesBytesExact(policy, p.output);
    forall c: Channel
      ensures Marshals(ChannelJson(safe, c)) && ChannelLength(safe, c) == SafeChannelBytes(policy, p, c)
    {
      SafeChannelExact(policy, p, c);
    }
  }

  /** Whatever the policy, a payload that passed the first validation passes the second after
      sanitizing exactly when the byte guards hold: nodes, depth and text cannot fail it. */
  lemma SecondValidationIsBytes(policy: Policy, p: Payload)
    requires !policy.RawPolicy? && Accepted(p, true)
    ensures Accepted(SanitizePayload(policy, p), false) <==> ByteGuards(policy, p)
    ensures Keyless(policy) ==> ByteGuards(policy, p)
  {
    hide Accepted, SanitizePayload, ChannelJson, BytesFit, ByteGuards, Keyless;
    SecondValidation(policy, p);
    GuardsAreBytes(policy, p);
    if Keyless(policy) {
      SanitizingStaysInBudget(policy, p);
    }
  }

  /** A payload that a policy lets through: accepted as input, and within the byte guards
      once it is sanitized. */
  ghost predicate Recordable(policy: Policy, p: Payload)
  {
    Accepted(p, true) && (policy.RawPolicy? || ByteGuards(policy, p))
  }

  /** Recording succeeds exactly on the recordable payloads, under every policy. */
  lemma RecordingSucceedsExactly(cfg: Config, p: Payload)
    requires cfg.record && |BoundedJson.MARKER| <= cfg.limit
    ensures PayloadAttributes(cfg, p).Some? <==> Recordable(cfg.policy, p)
    ensures cfg.policy.RawPolicy? || Keyless(cfg.policy) ==> (Recordable(cfg.policy, p) <==> Accepted(p, true))
  {
    hide Accepted, ChannelsAttributes, ByteGuards, SanitizePayload, Keyless;
    if Accepted(p, true) {
      var safe := SanitizePayload(cfg.policy, p);
      if cfg.policy.RawPolicy? {
        RawStaysInBudget(p);
      } else {
        SecondValidationIsBytes(cfg.policy, p);
      }
      if Accepted(safe, false) {
        AcceptedEncodes(safe, cfg.limit);
      }
    }
  }

  // ----- the guards can fail: kept keys outgrow the bound

  /** n times the same value. */
  function Copies(v: Json, n: nat): (r: seq<Json>)
    ensures |r| == n
  {
    if n == 0 then [] else [v] + Copies(v, n - 1)
  }

  lemma {:induction false} CopiesMeasures(v: Json, n: nat)
    requires WellFormed(v) && Canonical(v) && Marshals(v)
    ensures var r := Copies(v, n);
      && WellFormedItems(r) && CanonicalItems(r) && MarshalsItems(r)
      && LengthItems(r, true) == n * (Length(v, true) + 1)
      && NodesItems(r) == n * Nodes(v) && DepthItems(r) <= Depth(v)
  {
    hide WellFormed, Canonical, Marshals, Length, Nodes, Depth;
    if n > 0 {
      CopiesMeasures(v, n - 1);
      DropTake([v], Copies(v, n - 1));
      OneMoreCopy(n, Length(v, true) + 1);
      OneMoreCopy(n, Nodes(v));
    }
  }

  lemma OneMoreCopy(n: nat, size: nat)
    requires n > 0
    ensures n * size == size + (n - 1) * size
  {
  }

  lemma {:induction false} CopiesSafe(policy: Policy, v: Json, n: nat)
    ensures SafeItems(policy, Copies(v, n)) == n * (SafeLength(policy, v) + 1)
  {
    hide SafeLength;
    if n > 0 {
      CopiesSafe(policy, v, n - 1);
      DropTake([v], Copies(v, n - 1));
      OneMoreCopy(n, SafeLength(policy, v) + 1);
    }
  }

  /** A key of angle brackets takes six bytes a character. */
  lemma {:induction false} RepeatEscape(n: nat)
    ensures |Escape(Repeat('<', n), true)| == 6 * n && Valid(Repeat('<', n))
  {
    if n > 0 {
      RepeatEscape(n - 1);
      DropTake(['<'], Repeat('<', n - 1));
      assert Width(Repeat('<', n)) == 1;
    }
  }

  /** {"k":{"k":0}} */
  function Nested(key: Bytes): Json { JObj([Member(key, JObj([Member(key, JNum("0"))]))]) }

  lemma OneMember(key: Bytes, v: Json)
    requires Valid(key) && WellFormed(v) && Canonical(v) && Marshals(v)
    ensures var o := JObj([Member(key, v)]);
      && WellFormed(o) && Canonical(o) && Marshals(o)
      && Length(o, true) == |Escape(key, true)| + 5 + Length(v, true)
      && Nodes(o) == 1 + Nodes(v) && Depth(o) == 1 + Depth(v)
  {
    hide Escape, Valid, WellFormed, Canonical, Marshals, Length, Nodes, Depth;
    var m := Member(key, v);
    BoundedJson.MembersCons(m, []);
    assert [m] + [] == [m];
    ObjectOf([m]);
  }

  lemma ObjectOf(ms: seq<Member>)
    requires ms != [] && KeptMembers(ms) && MarshalsMembers(ms) && |ms| == 1
    ensures var o := JObj(ms);
      && WellFormed(o) && Canonical(o) && Marshals(o)
      && Length(o, true) == 1 + LengthMembers(ms, true)
      && Nodes(o) == 1 + NodesMembers(ms) && Depth(o) == 1 + DepthMembers(ms)
  {
    hide LengthMembers, NodesMembers, DepthMembers, MarshalsMembers;
  }

  lemma OneMemberSafe(policy: Policy, key: Bytes, v: Json)
    requires key in KeysOf(policy)
    ensures SafeLength(policy, JObj([Member(key, v)])) == |Escape(key, true)| + 5 + SafeLength(policy, v)
  {
    hide Escape, KeysOf;
    var ms := [Member(key, v)];
    assert ms[1..] == [] && KeysWithin(ms, KeysOf(policy));
    assert SafeMembers(policy, ms) == |Escape(key, true)| + 4 + SafeLength(policy, v) + SafeMembers(policy, ms[1..]);
  }

  lemma ZeroMeasures()
    ensures var v := JNum("0");
      WellFormed(v) && Canonical(v) && Marshals(v) && Length(v, true) == 1 && Nodes(v) == 1 && Depth(v) == 0
  {
    assert "0"[1..] == [];
    assert Digits("0") == 1 && NumberRun("0") == 1;
  }

  lemma NestedMeasures(key: Bytes)
    requires Valid(key) && |Escape(key, true)| == 480
    ensures var v := Nested(key);
      && WellFormed(v) && Canonical(v) && Marshals(v) && Length(v, true) == 971 && Nodes(v) == 3 && Depth(v) == 2
      && SafeLength(RedactPolicy({key}), v) == 982
  {
    hide Escape, Valid, WellFormed, Canonical, Marshals, Length, Nodes, Depth;
    ZeroMeasures();
    OneMember(key, JNum("0"));
    OneMember(key, JObj([Member(key, JNum("0"))]));
    OneMemberSafe(RedactPolicy({key}), key, JNum("0"));
    OneMemberSafe(RedactPolicy({key}), key, JObj([Member(key, JNum("0"))]));
  }

  /** A payload whose only part is a tool call with these arguments. */
  function ToolCall(arguments: Bytes): Payload
  {
    Payload([ContentPart("tool_call", [], [], [], arguments, None)], [], [])
  }

  /** A part of a tool call with read arguments. */
  lemma ToolPart(v: Json)
    requires WellFormed(v) && Canonical(v) && Marshals(v) && Length(v, true) > 0
    requires Length(v, true) + 80 <= MAX_BYTES && Nodes(v) + 7 <= MAX_NODES && Depth(v) + 2 <= MAX_DEPTH
    ensures Decode(Text(v, true)) == Ok(v)
    ensures var part := ContentPart("tool_call", [], [], [], Text(v, true), None);
      && PartAccepted(part, true) && PartBytes(part) <= MAX_BYTES && ChannelDecodes(JArr([PartJson(part)]))
  {
    hide Decode, Text, WellFormed, Canonical, Nodes, Depth, Valid, Escape, Length, Marshals, PartJson;
    var raw := Text(v, true);
    var part := ContentPart("tool_call", [], [], [], raw, None);
    LengthIsTextLength(v, true);
    BoundedJson.DecodeRead(v);
    RewriteSame(v);
    RawLength(raw);
    CanonFixed(v);
    EmptyIsValid();
    KindShort("tool_call");
    EscapePlain("tool_call", true);
    NullMeasures();
    PartMeasures(part);
    ToolKind();
    OneChannelDecodes(PartJson(part));
  }

  /** A tool call with read arguments is accepted while its channel fits. */
  lemma ToolCallAccepted(v: Json)
    requires WellFormed(v) && Canonical(v) && Marshals(v) && Length(v, true) > 0
    requires Length(v, true) + 80 <= MAX_BYTES && Nodes(v) + 7 <= MAX_NODES && Depth(v) + 2 <= MAX_DEPTH
    ensures Decode(Text(v, true)) == Ok(v) && Accepted(ToolCall(Text(v, true)), true)
  {
    hide Decode, Text, WellFormed, Canonical, Nodes, Depth, Length, Marshals, PartJson, PartAccepted, PartBytes,
         ChannelDecodes;
    ToolPart(v);
    OnePart(ToolCall(Text(v, true)).system[0]);
    ChannelDecodesNull();
  }

  lemma RawLength(raw: Bytes)
    requires Marshals(JRaw(raw)) && Text(JRaw(raw), true) == raw
    ensures Length(JRaw(raw), true) == |raw|
  {
  }

  lemma ToolKind()
    ensures "tool_call" !in MEDIA
  {
    assert |"tool_call"| == 9;
    assert "image_url"[0] != "tool_call"[0];
  }

  lemma EmptyIsValid()
    ensures Valid([]) && Escape([], true) == []
  {
  }

  lemma NullMeasures()
    ensures Marshals(JNull) && Length(JNull, true) == 4 && Nodes(ReadValue(JNull)) == 1 && Depth(Resolve(JNull)) == 0
  {
  }

  lemma OnePart(p: ContentPart)
    ensures PartsJson([p]) == [PartJson(p)] && PartsBytes([p]) == PartBytes(p)
  {
    hide PartJson, PartBytes;
    assert [p][1..] == [];
  }

  /** A channel of one item within the bounds decodes. */
  lemma OneChannelDecodes(j: Json)
    requires Marshals(j) && Length(j, true) + 2 <= MAX_BYTES
    requires Nodes(ReadValue(j)) + 1 <= MAX_NODES && Depth(Resolve(j)) + 1 <= MAX_DEPTH
    ensures ChannelDecodes(JArr([j]))
  {
    hide Decode, Text, Nodes, Depth, Length, Resolve, Canon, Marshals;
    OneItem(j);
    DecodeOfText(JArr([j]), true);
    LengthIsTextLength(JArr([j]), true);
  }

  lemma OneItem(j: Json)
    requires Marshals(j)
    ensures var v := JArr([j]);
      && Marshals(v) && Length(v, true) == Length(j, true) + 2
      && Nodes(Canon(Resolve(v))) == 1 + Nodes(ReadValue(j)) && Depth(Resolve(v)) == 1 + Depth(Resolve(j))
  {
    ItemsCons(j, []);
    assert [j] + [] == [j];
  }

  /** 1070 nested objects under a key of 80 brackets. */
  function Outgrowing(): Json { JArr(Copies(Nested(Repeat('<', 80)), 1070)) }

  /** An accepted payload that a redacting policy cannot record: the keys are kept and the
      zeros below them grow into constants. */
  lemma KeptKeysCanOutgrow(cfg: Config)
    requires cfg.record && cfg.policy == RedactPolicy({Repeat('<', 80)}) && |BoundedJson.MARKER| <= cfg.limit
    ensures Marshals(Outgrowing())
    ensures var p := ToolCall(Text(Outgrowing(), true));
      Accepted(p, true) && !ByteGuards(cfg.policy, p) && PayloadAttributes(cfg, p) == None
  {
    hide Accepted, ByteGuards, Repeat, Escape, Text, Length, Nodes, Depth, WellFormed, Canonical, Marshals, Copies,
         Nested, PayloadAttributes, Valid, Decode, SafeLength;
    var key, v := Repeat('<', 80), Outgrowing();
    RepeatEscape(80);
    NestedMeasures(key);
    CopiesArray(cfg.policy, Nested(key), 1070);
    ToolCallAccepted(v);
    LengthIsTextLength(v, true);
    OutgrownRaw(cfg.policy, Text(v, true), v);
    RecordingSucceedsExactly(cfg, ToolCall(Text(v, true)));
  }

  /** On text, redacting twice equals redacting once exactly when the text can be read and the
      redaction of its value, counted on the value, is within the input bound. */
  lemma RedactingTwiceIsOnce(raw: Bytes, keys: set<Bytes>)
    ensures RedactText(RedactText(raw, keys), keys) == RedactText(raw, keys)
       <==> Decode(raw).Ok? && SafeLength(RedactPolicy(keys), Decode(raw).value) <= MAX_BYTES
  {
    hide Decode, RedactText, SafeLength, SanitizeRaw;
    RedactTextIdempotent(raw, keys);
    if Decode(raw).Ok? {
      NothingUndecoded();
      SafeRawExact(RedactPolicy(keys), raw);
      RedactIsSanitize(RedactPolicy(keys), raw);
    }
  }

  lemma NothingUndecoded()
    ensures Decode([]).Err?
  {
    EmptyRaw();
  }

  /** On text, redaction is not idempotent for what cannot be read, nor for what outgrows the bound. */
  lemma RedactingTwiceCanDiffer(keys: set<Bytes>)
    ensures Decode("x").Err? && RedactText(RedactText("x", keys), keys) != RedactText("x", keys)
    ensures Marshals(Outgrowing())
    ensures var raw, kept := Text(Outgrowing(), true), {Repeat('<', 80)};
      Decode(raw).Ok? && RedactText(RedactText(raw, kept), kept) != RedactText(raw, kept)
  {
    hide Repeat, Escape, Text, Length, Nodes, Depth, WellFormed, Canonical, Marshals, Copies, Nested, Valid, Decode,
         SafeLength, RedactText, Accepted;
    NotJson();
    RedactTextIdempotent("x", keys);
    var key, v := Repeat('<', 80), Outgrowing();
    var policy := RedactPolicy({key});
    RepeatEscape(80);
    NestedMeasures(key);
    CopiesArray(policy, Nested(key), 1070);
    ToolCallAccepted(v);
    LengthIsTextLength(v, true);
    SafeRawExact(policy, Text(v, true));
    RedactIsSanitize(policy, Text(v, true));
    RedactTextIdempotent(Text(v, true), {key});
  }

  lemma NotJson()
    ensures Decode("x").Err?
  {
    assert NextToken("x") == None by {
      assert "true"[0] != 'x' && "false"[0] != 'x' && "null"[0] != 'x';
    }
    assert Lex("x") == None;
  }

  lemma RedactIsSanitize(policy: Policy, raw: Bytes)
    requires policy.RedactPolicy? && raw != []
    ensures SanitizeRaw(policy, raw) == RedactText(raw, policy.keys)
  {
    hide SanitizeText;
  }

  lemma CopiesArray(policy: Policy, v: Json, n: nat)
    requires n > 0 && WellFormed(v) && Canonical(v) && Marshals(v)
    ensures var a := JArr(Copies(v, n));
      && WellFormed(a) && Canonical(a) && Marshals(a)
      && Length(a, true) == 1 + n * (Length(v, true) + 1) && Nodes(a) == 1 + n * Nodes(v) && Depth(a) <= 1 + Depth(v)
      && SafeLength(policy, a) == 1 + n * (SafeLength(policy, v) + 1)
  {
    hide Copies;
    CopiesMeasures(v, n);
    CopiesSafe(policy, v, n);
  }

  lemma OutgrownRaw(policy: Policy, raw: Bytes, v: Json)
    requires raw != [] && Decode(raw) == Ok(v) && SafeLength(policy, v) > MAX_BYTES
    ensures !ByteGuards(policy, ToolCall(raw))
  {
    hide Decode, SafeLength;
    var part := ToolCall(raw).system[0];
    assert SafePartBytes(policy, part) >= SafeRaw(policy, part.arguments);
    assert ToolCall(raw).system == [part] && [part][1..] == [];
  }
}
