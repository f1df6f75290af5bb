/** What the attributes of a recorded payload hold, told by the sanitized payload field by field
    (genai/helpers.go, genai/bounded_json.go). */
module RecordedPayloads {
  import opened Bytes
  import opened Utf8
  import opened JsonText
  import opened JsonTree
  import opened JsonDecode
  import opened JsonLength
  import opened Sanitize
  import opened Payload
  import opened PayloadWire
  import opened PayloadBounds
  import opened BoundedJson
  import opened Evidence

  // ----- objects in key order

  lemma {:induction false} FindIn(ms: seq<Member>, key: Bytes)
    ensures Find(ms, key).Some? <==> HasKey(ms, key)
  {
    if ms != [] {
      FindIn(ms[1..], key);
      if HasKey(ms, key) && ms[0].key != key {
        var i :| 0 <= i < |ms| && ms[i].key == key;
        assert ms[1..][i - 1].key == key;
      }
      if HasKey(ms[1..], key) {
        var i :| 0 <= i < |ms[1..]| && ms[1..][i].key == key;
        assert ms[i + 1].key == key;
      }
    }
  }

  lemma SortedHead(ms: seq<Member>, key: Bytes)
    requires ms != [] && Sorted(ms)
    ensures Sorted(ms[1..]) && Find(ms[1..], ms[0].key) == None
    ensures HasKey(ms, key) && key != ms[0].key ==> Less(ms[0].key, key)
  {
    assert forall i :: 0 <= i < |ms[1..]| ==> ms[1..][i] == ms[i + 1];
    FindIn(ms[1..], ms[0].key);
    if HasKey(ms[1..], ms[0].key) {
      var i :| 0 <= i < |ms[1..]| && ms[1..][i].key == ms[0].key;
      LessIrreflexive(ms[0].key);
    }
  }

  /** Objects in key order with the same fields are the same. */
  lemma {:induction false} SortedSame(a: seq<Member>, b: seq<Member>)
    requires Sorted(a) && Sorted(b) && forall key :: Find(a, key) == Find(b, key)
    ensures a == b
  {
    hide Less, Sorted;
    if b != [] {
      SameFirst(b, a);
    }
    if a != [] {
      SameFirst(a, b);
      SortedHead(a, a[0].key);
      SortedHead(b, a[0].key);
      forall key
        ensures Find(a[1..], key) == Find(b[1..], key)
      {
        assert Find(a, key) == Find(b, key);
      }
      SortedSame(a[1..], b[1..]);
      assert Find(a, a[0].key) == Find(b, a[0].key);
      assert a == [a[0]] + a[1..] && b == [b[0]] + b[1..];
    }
  }

  lemma SameFirst(a: seq<Member>, b: seq<Member>)
    requires a != [] && Sorted(a) && Sorted(b) && forall key :: Find(a, key) == Find(b, key)
    ensures b != [] && a[0].key == b[0].key
  {
    hide Less, Sorted;
    assert Find(b, a[0].key).Some?;
    FindIn(b, a[0].key);
    FindIn(a, b[0].key);
    SortedHead(a, b[0].key);
    SortedHead(b, a[0].key);
    if a[0].key != b[0].key {
      LessAsymmetric(a[0].key, b[0].key);
    }
  }

  lemma {:induction false} FindConcat(a: seq<Member>, b: seq<Member>, key: Bytes)
    ensures Find(a + b, key) == if Find(a, key).Some? then Find(a, key) else Find(b, key)
  {
    if a == [] {
      AddEmpty(b);
    } else {
      FindConcat(a[1..], b, key);
      assert (a + b)[1..] == a[1..] + b;
    }
  }

  lemma FindOptional(k: Bytes, present: bool, v: Json, key: Bytes)
    ensures Find(Optional(k, present, v), key) == if present && k == key then Some(v) else None
  {
    assert [Member(k, v)][1..] == [];
  }

  // ----- the objects of a payload

  /** A part as the decoder reads it: its fields in key order. */
  function PartObject(p: ContentPart): Json
  {
    JObj(Optional(ARGUMENTS, p.arguments != [], RawMeaning(p.arguments))
         + [Member(CONTENT, JStr(p.content))]
         + Optional(ID, p.id != [], JStr(p.id))
         + [Member(NAME, JStr(p.name)),
            Member(RESPONSE, if p.response.None? then JNull else RawMeaning(p.response.value)),
            Member(TYPE, JStr(p.kind))])
  }

  function PartObjects(parts: seq<ContentPart>): (r: seq<Json>)
    ensures |r| == |parts|
  {
    seq(|parts|, i requires 0 <= i < |parts| => PartObject(parts[i]))
  }

  function MessageObject(m: Message): Json
  {
    JObj([Member(PARTS, JArr(PartObjects(m.parts))), Member(ROLE, JStr(m.role))])
  }

  function MessageObjects(ms: seq<Message>): (r: seq<Json>)
    ensures |r| == |ms|
  {
    seq(|ms|, i requires 0 <= i < |ms| => MessageObject(ms[i]))
  }

  /** What a channel holds: one object for each part or message. */
  function ChannelObjects(p: Payload, c: Channel): seq<Json>
  {
    match c
    case SystemInstructions => PartObjects(p.system)
    case InputMessages => MessageObjects(p.input)
    case OutputMessages => MessageObjects(p.output)
  }

  lemma PartKeysAscend()
    ensures Less(ARGUMENTS, CONTENT) && Less(CONTENT, ID) && Less(ID, NAME) && Less(NAME, RESPONSE)
    ensures Less(RESPONSE, TYPE) && Less(PARTS, ROLE)
  {
  }

  lemma PartObjectSorted(p: ContentPart)
    ensures Sorted(PartObject(p).members)
  {
    hide RawMeaning, Less;
    PartKeysAscend();
    LessTransitive(ARGUMENTS, CONTENT, ID);
    LessTransitive(ARGUMENTS, CONTENT, NAME);
    LessTransitive(CONTENT, ID, NAME);
    LessTransitive(ARGUMENTS, ID, NAME);
    LessTransitive(ID, NAME, RESPONSE);
    LessTransitive(CONTENT, NAME, RESPONSE);
    LessTransitive(ARGUMENTS, NAME, RESPONSE);
    LessTransitive(NAME, RESPONSE, TYPE);
    LessTransitive(ID, RESPONSE, TYPE);
    LessTransitive(CONTENT, RESPONSE, TYPE);
    LessTransitive(ARGUMENTS, RESPONSE, TYPE);
  }

  lemma PartObjectLookup(p: ContentPart, key: Bytes)
    ensures Find(PartObject(p).members, key) ==
      if key == RESPONSE then Some(if p.response.None? then JNull else RawMeaning(p.response.value))
      else if key == ARGUMENTS && p.arguments != [] then Some(RawMeaning(p.arguments))
      else if key == NAME then Some(JStr(p.name))
      else if key == ID && p.id != [] then Some(JStr(p.id))
      else if key == CONTENT then Some(JStr(p.content))
      else if key == TYPE then Some(JStr(p.kind))
      else None
  {
    hide Optional, RawMeaning, Find;
    KeysDiffer();
    var a1 := Optional(ARGUMENTS, p.arguments != [], RawMeaning(p.arguments));
    var a2, a3 := [Member(CONTENT, JStr(p.content))], Optional(ID, p.id != [], JStr(p.id));
    var response := if p.response.None? then JNull else RawMeaning(p.response.value);
    var a4 := [Member(NAME, JStr(p.name)), Member(RESPONSE, response), Member(TYPE, JStr(p.kind))];
    FindOptional(ARGUMENTS, p.arguments != [], RawMeaning(p.arguments), key);
    FindSingle(Member(CONTENT, JStr(p.content)), key);
    FindOptional(ID, p.id != [], JStr(p.id), key);
    FindThree(a4, key);
    FindConcat(a1, a2, key);
    FindConcat(a1 + a2, a3, key);
    FindConcat(a1 + a2 + a3, a4, key);
  }

  lemma FindSingle(m: Member, key: Bytes)
    ensures Find([m], key) == if m.key == key then Some(m.value) else None
  {
    assert [m][1..] == [];
  }

  lemma FindThree(ms: seq<Member>, key: Bytes)
    requires |ms| == 3
    ensures Find(ms, key) ==
              if ms[0].key == key then Some(ms[0].value)
              else if ms[1].key == key then Some(ms[1].value)
              else if ms[2].key == key then Some(ms[2].value) else None
  {
    assert ms[1..][1..] == [ms[2]];
    FindSingle(ms[2], key);
  }

  /** A written part reads back as its object. */
  lemma PartIsObject(p: ContentPart)
    requires GoodPart(p)
    ensures Marshals(PartJson(p)) && ReadValue(PartJson(p)) == PartObject(p)
  {
    hide GoodPart, MarshalsMembers, RawMeaning, PartMembers, PartFields, LastOf, PartObject, Find, Less, InsertAll,
         ReadMembers;
    PartReads(p);
    ReadObject(PartFields(p));
    var read := InsertAll([], PartMembers(p));
    NothingFound();
    InsertAllIsMap([], PartMembers(p));
    PartObjectIsObject(p);
    PartObjectSorted(p);
    forall key
      ensures Find(read, key) == Find(PartObject(p).members, key)
    {
      PartLookup(p, key);
      PartObjectLookup(p, key);
    }
    SortedSame(read, PartObject(p).members);
  }

  lemma PartObjectIsObject(p: ContentPart)
    ensures PartObject(p).JObj?
  {
  }

  lemma NothingFound()
    ensures Sorted([]) && forall key :: Find([], key) == None
  {
  }

  lemma {:induction false} PartsAreObjects(parts: seq<ContentPart>)
    requires forall i :: 0 <= i < |parts| ==> GoodPart(parts[i])
    ensures MarshalsItems(PartsJson(parts)) && CanonItems(ResolveItems(PartsJson(parts))) == PartObjects(parts)
  {
    hide GoodPart, Marshals, Resolve, Canon, PartJson, PartObject;
    if parts != [] {
      PartIsObject(parts[0]);
      assert forall i :: 0 <= i < |parts[1..]| ==> parts[1..][i] == parts[i + 1];
      PartsAreObjects(parts[1..]);
      ItemsHead(PartJson(parts[0]), PartsJson(parts[1..]));
      assert PartObjects(parts) == [PartObject(parts[0])] + PartObjects(parts[1..]);
    }
  }

  lemma MessageObjectRead(role: Json, parts: Json)
    ensures InsertAll([], [Member(ROLE, role), Member(PARTS, parts)]) == [Member(PARTS, parts), Member(ROLE, role)]
  {
    hide Less;
    PartKeysAscend();
    LessAsymmetric(PARTS, ROLE);
    KeysDiffer();
    var a, b := Member(ROLE, role), Member(PARTS, parts);
    assert [a, b][1..] == [b] && [b][1..] == [];
    assert Insert([], a) == [a] && Insert([a], b) == [b] + [a];
    assert InsertAll([a], [b]) == InsertAll([b] + [a], []);
  }

  lemma MessageIsObject(m: Message)
    requires GoodMessage(m)
    ensures Marshals(MessageJson(m)) && ReadValue(MessageJson(m)) == MessageObject(m)
  {
    hide GoodPart, Marshals, MarshalsMembers, MarshalsItems, InsertAll, ReadMembers, ResolveItems, CanonItems,
         ReadValue, PartsJson, PartObjects, Nodes;
    PartsAreObjects(m.parts);
    MessageReads(m);
    ReadObject([Member(ROLE, JStr(m.role)), Member(PARTS, JArr(PartsJson(m.parts)))]);
    MessageObjectRead(JStr(m.role), JArr(PartObjects(m.parts)));
  }

  lemma {:induction false} MessagesAreObjects(ms: seq<Message>)
    requires forall i :: 0 <= i < |ms| ==> GoodMessage(ms[i])
    ensures MarshalsItems(MessagesJson(ms)) && CanonItems(ResolveItems(MessagesJson(ms))) == MessageObjects(ms)
  {
    hide GoodMessage, Marshals, Resolve, Canon, MessageJson, MessageObject;
    if ms != [] {
      MessageIsObject(ms[0]);
      assert forall i :: 0 <= i < |ms[1..]| ==> ms[1..][i] == ms[i + 1];
      MessagesAreObjects(ms[1..]);
      ItemsHead(MessageJson(ms[0]), MessagesJson(ms[1..]));
      assert MessageObjects(ms) == [MessageObject(ms[0])] + MessageObjects(ms[1..]);
    }
  }

  // ----- the attributes of one channel

  /** The recorded attributes of a channel, in order. */
  function OfChannel(attrs: seq<Attribute>, c: Channel): seq<Attribute>
  {
    if attrs == [] then []
    else (if attrs[0].channel == c then [attrs[0]] else []) + OfChannel(attrs[1..], c)
  }

  lemma {:induction false} OfChannelConcat(a: seq<Attribute>, b: seq<Attribute>, c: Channel)
    ensures OfChannel(a + b, c) == OfChannel(a, c) + OfChannel(b, c)
  {
    if a == [] {
      AddEmpty(b);
      AddEmpty(OfChannel(b, c));
    } else {
      OfChannelConcat(a[1..], b, c);
      assert (a + b)[1..] == a[1..] + b;
      Assoc(if a[0].channel == c then [a[0]] else [], OfChannel(a[1..], c), OfChannel(b, c));
    }
  }

  /** The attributes built for a channel are of that channel. */
  lemma OwnAttributes(p: Payload, c: Channel, limit: int, d: Channel)
    requires ChannelAttributes(p, c, limit).Some?
    ensures var own := ChannelAttributes(p, c, limit).value;
      OfChannel(own, d) == if c == d then own else []
  {
    hide BoundedArray, ChannelJson;
    var own := ChannelAttributes(p, c, limit).value;
    if |own| == 1 {
      assert own == [own[0]];
      OfOne(own[0], d);
    } else if |own| == 2 {
      assert own == [own[0]] + [own[1]];
      OfOne(own[0], d);
      OfOne(own[1], d);
      OfChannelConcat([own[0]], [own[1]], d);
    }
  }

  lemma OfOne(a: Attribute, c: Channel)
    ensures OfChannel([a], c) == if a.channel == c then [a] else []
  {
    assert [a][1..] == [];
    AddEmpty([a]);
  }

  lemma {:induction false} ChannelsOwn(p: Payload, cs: seq<Channel>, limit: int, c: Channel)
    requires ChannelsAttributes(p, cs, limit).Some?
    requires forall i, j :: 0 <= i < j < |cs| ==> cs[i] != cs[j]
    ensures var own := OfChannel(ChannelsAttributes(p, cs, limit).value, c);
      && (c !in cs ==> own == [])
      && (c in cs ==> ChannelAttributes(p, c, limit) == Some(own))
  {
    hide ChannelAttributes;
    if cs != [] {
      var first, rest := ChannelAttributes(p, cs[0], limit).value, ChannelsAttributes(p, cs[1..], limit).value;
      assert cs == [cs[0]] + cs[1..];
      assert cs[0] !in cs[1..];
      ChannelsOwn(p, cs[1..], limit, c);
      OwnAttributes(p, cs[0], limit, c);
      OfChannelConcat(first, rest, c);
      AddEmpty(first);
      AddEmpty(OfChannel(ChannelsAttributes(p, cs[1..], limit).value, c));
    }
  }

  /** The text of a channel is the longest prefix of its objects that fits. */
  ghost predicate HoldsLongest(text: Bytes, objects: seq<Json>, limit: int)
  {
    && |text| <= limit && Decode(text).Ok? && Decode(text).value.JArr?
    && var kept := Decode(text).value.items;
       && kept <= objects
       && forall j :: |kept| < j <= |objects| ==>
            Marshals(JArr(objects[..j])) && |Text(JArr(objects[..j]), true)| > limit
  }

  lemma ArrayNotEmpty(js: seq<Json>, limit: int)
    requires |MARKER| <= limit && BoundedArray(JArr(js), limit).Ok?
    requires js != [] && MarshalsItems(js)
    ensures BoundedArray(JArr(js), limit).value.0 != []
  {
    hide Text, Decode, Marshals, LongestArray, Length, Resolve, Canon, ResolveItems, CanonItems;
    var encoded := Text(JArr(js), true);
    ArrayTextStarts(js);
    ChannelItems(js);
    if |encoded| > limit {
      DecodeSound(encoded);
      var items := Decode(encoded).value.items;
      DecodedItems(Decode(encoded).value);
      DecodedPrefixes(items);
      var k := LongestArray(items, |items|, limit);
      ArrayPrefix(items, k, limit);
      ArrayTextStarts(items[..k]);
    }
  }

  /** What bounding an array of known objects gives. */
  lemma BoundedObjects(js: seq<Json>, objects: seq<Json>, limit: int)
    requires |MARKER| <= limit <= MAX_BYTES && BoundedArray(JArr(js), limit).Ok?
    requires js != [] && MarshalsItems(js) && CanonItems(ResolveItems(js)) == objects
    ensures var (text, truncated) := BoundedArray(JArr(js), limit).value;
      && text != [] && HoldsLongest(text, objects, limit)
      && (truncated <==> |Decode(text).value.items| < |objects|)
  {
    hide Text, Decode, Marshals, Valid, BoundedArray, ArrayFits, Resolve, Canon, ResolveItems, CanonItems;
    ArrayNotEmpty(js, limit);
    ArrayTruncation(JArr(js), limit);
    ChannelItems(js);
    var (text, truncated) := BoundedArray(JArr(js), limit).value;
    var kept := Decode(text).value.items;
    forall j | |kept| < j <= |objects|
      ensures Marshals(JArr(objects[..j])) && |Text(JArr(objects[..j]), true)| > limit
    {
      ArrayPrefix(objects, j, limit);
    }
  }

  lemma NoObjects(p: Payload, c: Channel, limit: int)
    requires |MARKER| <= limit && ChannelObjects(p, c) == []
    ensures ChannelAttributes(p, c, limit) == Some([])
  {
    hide BoundedArray;
    NullRecordsNothing(limit);
  }

  lemma SomeObjects(p: Payload, c: Channel)
    requires Accepted(p, false) && ChannelObjects(p, c) != []
    ensures ChannelJson(p, c).JArr?
    ensures var js := ChannelJson(p, c).items;
      js != [] && MarshalsItems(js) && CanonItems(ResolveItems(js)) == ChannelObjects(p, c)
  {
    hide PartAccepted, GoodPart, GoodMessage, PartsJson, MessagesJson, PartObject, MessageObject, ChannelDecodes, Text,
         Decode;
    assert ChannelDecodes(ChannelJson(p, c));
    ChannelMarshals(ChannelJson(p, c));
    match c {
      case SystemInstructions =>
        PartsAreGood(p.system);
        PartsAreObjects(p.system);
      case InputMessages =>
        MessagesAreGood(p.input);
        MessagesAreObjects(p.input);
      case OutputMessages =>
        MessagesAreGood(p.output);
        MessagesAreObjects(p.output);
    }
  }

  lemma ChannelMarshals(v: Json)
    requires ChannelDecodes(v)
    ensures Marshals(v) && (v.JArr? ==> MarshalsItems(v.items))
  {
  }

  /** Of a recorded payload each non-empty channel has one text, which holds one object for each of
      its parts or messages up to the limit, and a marker exactly when some are left out; an empty
      channel has nothing, and without recording none has. */
  lemma PayloadIsRecorded(cfg: Config, p: Payload, c: Channel)
    requires ValidConfig(cfg) && PayloadAttributes(cfg, p).Some?
    ensures var own := OfChannel(PayloadAttributes(cfg, p).value, c);
      var objects := ChannelObjects(SanitizePayload(cfg.policy, p), c);
      && (!cfg.record || objects == [] ==> own == [])
      && (cfg.record && objects != [] ==>
            && own != [] && own[0].Value? && own[0].channel == c
            && HoldsLongest(own[0].text, objects, cfg.limit)
            && own[1..] == if |Decode(own[0].text).value.items| < |objects| then [Truncated(c)] else [])
  {
    hide Accepted, ChannelsAttributes, ChannelObjects, ChannelJson, BoundedArray, HoldsLongest, Decode, SanitizePayload;
    var safe := SanitizePayload(cfg.policy, p);
    assert c in CHANNELS by {
      assert CHANNELS[0] == SystemInstructions && CHANNELS[1] == InputMessages && CHANNELS[2] == OutputMessages;
    }
    if !cfg.record {
      return;
    }
    ChannelsOwn(safe, CHANNELS, cfg.limit, c);
    if ChannelObjects(safe, c) == [] {
      NoObjects(safe, c, cfg.limit);
    } else {
      SomeObjects(safe, c);
      BoundedObjects(ChannelJson(safe, c).items, ChannelObjects(safe, c), cfg.limit);
    }
  }

  /** The channels are recorded in their order. */
  lemma ChannelsInOrder(cfg: Config, p: Payload)
    requires cfg.record && PayloadAttributes(cfg, p).Some?
    ensures var attrs := PayloadAttributes(cfg, p).value;
      attrs == OfChannel(attrs, SystemInstructions) + OfChannel(attrs, InputMessages) + OfChannel(attrs, OutputMessages)
  {
    hide Accepted, ChannelAttributes, SanitizePayload;
    var safe := SanitizePayload(cfg.policy, p);
    ChannelsOwn(safe, CHANNELS, cfg.limit, SystemInstructions);
    ChannelsOwn(safe, CHANNELS, cfg.limit, InputMessages);
    ChannelsOwn(safe, CHANNELS, cfg.limit, OutputMessages);
    var a := ChannelAttributes(safe, SystemInstructions, cfg.limit).value;
    var b := ChannelAttributes(safe, InputMessages, cfg.limit).value;
    var d := ChannelAttributes(safe, OutputMessages, cfg.limit).value;
    var last, rest := [OutputMessages], [InputMessages, OutputMessages];
    OneChannel(safe, OutputMessages, cfg.limit);
    assert rest[1..] == last && CHANNELS[1..] == rest;
    assert ChannelsAttributes(safe, rest, cfg.limit) == Some(b + d);
    assert ChannelsAttributes(safe, CHANNELS, cfg.limit) == Some(a + (b + d));
    Assoc(a, b, d);
  }
}
