/** What the built-in content policies make of a payload (genai/payload_policy.go): every text in
    the form its policy gives it, and nothing of a redacted payload but its skeleton. */
module Protection {
  import opened Bytes
  import opened Utf8
  import opened JsonText
  import opened JsonTree
  import opened JsonDecode
  import opened Sanitize
  import opened Payload

  // ----- texts

  /** The form in which a policy shows a text: as it is, as the constant, or as the fingerprint of
      exactly this text. */
  predicate ShownAs(policy: Policy, s: Bytes, r: Bytes)
  {
    if policy.RawPolicy? || s == "" then r == s
    else if policy.RedactPolicy? then r == "[redacted]"
    else r == "sha256:" + policy.hash(s)
  }

  /** Names, identities and contents are shown in the form of the policy, whatever they say; a kind
      only when it is none of the vocabulary. */
  lemma TextsAreShown(policy: Policy, p: ContentPart)
    ensures var q := SanitizePart(policy, p);
      && ShownAs(policy, p.content, q.content) && ShownAs(policy, p.id, q.id) && ShownAs(policy, p.name, q.name)
      && (if p.kind in KINDS then q.kind == p.kind else ShownAs(policy, p.kind, q.kind))
      && (policy.RawPolicy? ==> q == p)
  {
    hide SanitizeText;
  }

  lemma RolesAreShown(policy: Policy, m: Message)
    ensures var n := SanitizeMessage(policy, m);
      && (if m.role in ROLES then n.role == m.role else ShownAs(policy, m.role, n.role))
      && |n.parts| == |m.parts| && forall i :: 0 <= i < |m.parts| ==> n.parts[i] == SanitizePart(policy, m.parts[i])
  {
    hide SanitizePart;
  }

  // ----- fingerprints of JSON

  /** Arrays keep their length; everything else but an empty object is the fingerprint of its own text. */
  predicate HashedAs(hash: Hash, v: Json, r: Json)
    requires WellFormed(v)
  {
    WellFormedMarshals(v);
    match v
    case JArr(items) => r.JArr? && HashedItems(hash, items, r.items)
    case _ => r == if v == JObj([]) then v else JStr("sha256:" + hash(Text(v, true)))
  }

  predicate HashedItems(hash: Hash, items: seq<Json>, rs: seq<Json>)
    requires WellFormedItems(items)
  {
    if items == [] then rs == []
    else rs != [] && HashedAs(hash, items[0], rs[0]) && HashedItems(hash, items[1..], rs[1..])
  }

  /** The hashing policy replaces each leaf of a value by the fingerprint of its canonical text. */
  lemma {:induction false} LeavesAreHashed(hash: Hash, v: Json)
    requires WellFormed(v)
    ensures HashedAs(hash, v, SanitizeValue(v, HashLeaf(hash), {}))
    decreases v, 1
  {
    hide Text, Marshals;
    match v {
      case JArr(items) => ItemsAreHashed(hash, items);
      case JObj(members) =>
        WellFormedMarshals(v);
        if members != [] {
          assert members[0].key !in {};
        } else {
          NoMembersSanitized(HashLeaf(hash));
        }
      case _ => WellFormedMarshals(v);
    }
  }

  lemma NoMembersSanitized(leaf: Leaf)
    ensures SanitizeValue(JObj([]), leaf, {}) == JObj([])
  {
  }

  lemma {:induction false} ItemsAreHashed(hash: Hash, items: seq<Json>)
    requires WellFormedItems(items)
    ensures HashedItems(hash, items, SanitizeItems(items, HashLeaf(hash), {}))
    decreases items, 0
  {
    if items != [] {
      LeavesAreHashed(hash, items[0]);
      ItemsAreHashed(hash, items[1..]);
      assert SanitizeItems(items, HashLeaf(hash), {})[1..] == SanitizeItems(items[1..], HashLeaf(hash), {});
    }
  }

  /** Hashed raw JSON is JSON whose leaves are the fingerprints of the leaves that were read. */
  lemma RawIsHashed(hash: Hash, raw: Bytes)
    requires raw != [] && Decode(raw).Ok?
    ensures WellFormed(Decode(raw).value)
    ensures var r := Parse(SanitizeRaw(HashPolicy(hash), raw));
      r.Some? && HashedAs(hash, Decode(raw).value, r.value)
  {
    hide Text, Decode, Marshals, Parse, Short, HashedAs, HashLeaf;
    DecodeSound(raw);
    BuiltInLeavesShort(hash);
    SanitizedTextDecodes(raw, HashLeaf(hash), {});
    LeavesAreHashed(hash, Decode(raw).value);
  }

  /** The texts whose fingerprints stand in a hashed value. */
  function HashedTexts(v: Json): set<Bytes>
    requires WellFormed(v)
  {
    WellFormedMarshals(v);
    match v
    case JArr(items) => HashedItemTexts(items)
    case _ => {Text(v, true)}
  }

  function HashedItemTexts(items: seq<Json>): set<Bytes>
    requires WellFormedItems(items)
  {
    if items == [] then {} else HashedTexts(items[0]) + HashedItemTexts(items[1..])
  }

  /** No two of these texts have one fingerprint. */
  ghost predicate Apart(hash: Hash, a: set<Bytes>, b: set<Bytes>)
  {
    forall x, y :: x in a && y in b && hash(x) == hash(y) ==> x == y
  }

  /** Unless fingerprints collide, different values stay different: hashing keeps equality. */
  lemma {:induction false} HashingSeparates(hash: Hash, v: Json, w: Json)
    requires WellFormed(v) && WellFormed(w) && Apart(hash, HashedTexts(v), HashedTexts(w))
    ensures SanitizeValue(v, HashLeaf(hash), {}) == SanitizeValue(w, HashLeaf(hash), {}) <==> v == w
    decreases v, 1
  {
    hide Text, Marshals, SanitizeValue;
    LeavesAreHashed(hash, v);
    LeavesAreHashed(hash, w);
    WellFormedMarshals(v);
    WellFormedMarshals(w);
    if v.JArr? && w.JArr? {
      ItemsSeparate(hash, v.items, w.items);
      ArraySanitized(v.items, HashLeaf(hash));
      ArraySanitized(w.items, HashLeaf(hash));
    } else if !v.JArr? && !w.JArr? && Text(v, true) == Text(w, true) {
      SameText(v, w);
    } else if !v.JArr? && !w.JArr? && v != JObj([]) && w != JObj([]) {
      FingerprintsDiffer(hash(Text(v, true)), hash(Text(w, true)));
    }
  }

  lemma FingerprintsDiffer(a: Bytes, b: Bytes)
    ensures "sha256:" + a == "sha256:" + b <==> a == b
  {
    DropTake("sha256:", a);
    DropTake("sha256:", b);
  }

  lemma SameText(v: Json, w: Json)
    requires WellFormed(v) && WellFormed(w) && Marshals(v) && Marshals(w) && Text(v, true) == Text(w, true)
    ensures v == w
  {
    hide Text, Parse, Marshals;
    PrintParse(v, true);
    PrintParse(w, true);
  }

  lemma ArraySanitized(items: seq<Json>, leaf: Leaf)
    ensures SanitizeValue(JArr(items), leaf, {}) == JArr(SanitizeItems(items, leaf, {}))
  {
  }

  lemma ApartParts(hash: Hash, a: seq<Json>, b: seq<Json>)
    requires WellFormedItems(a) && WellFormedItems(b) && Apart(hash, HashedItemTexts(a), HashedItemTexts(b))
    requires a != [] && b != []
    ensures Apart(hash, HashedTexts(a[0]), HashedTexts(b[0]))
    ensures Apart(hash, HashedItemTexts(a[1..]), HashedItemTexts(b[1..]))
  {
    hide HashedTexts, WellFormed;
  }

  lemma {:induction false} ItemsSeparate(hash: Hash, a: seq<Json>, b: seq<Json>)
    requires WellFormedItems(a) && WellFormedItems(b) && Apart(hash, HashedItemTexts(a), HashedItemTexts(b))
    ensures SanitizeItems(a, HashLeaf(hash), {}) == SanitizeItems(b, HashLeaf(hash), {}) <==> a == b
    decreases a, 0
  {
    hide HashedTexts, HashedItemTexts, SanitizeValue, WellFormed, Apart, HashLeaf;
    if |a| == |b| && a != [] {
      ApartParts(hash, a, b);
      HashingSeparates(hash, a[0], b[0]);
      ItemsSeparate(hash, a[1..], b[1..]);
      var ra, rb := SanitizeItems(a, HashLeaf(hash), {}), SanitizeItems(b, HashLeaf(hash), {});
      assert ra == [ra[0]] + ra[1..] && rb == [rb[0]] + rb[1..];
      assert a == [a[0]] + a[1..] && b == [b[0]] + b[1..];
    }
  }

  // ----- the skeleton of a payload

  /** What redaction lets through of raw JSON. */
  function RawShape(raw: Bytes, keys: set<Bytes>): Option<Shape>
    requires RawAccepted(raw)
  {
    if raw == [] then None else Some(ShapeOf(Decode(raw).value, keys))
  }

  /** What redaction lets through of a part: its kind if that is in the vocabulary, which texts it
      has, and the shape of its JSON. */
  datatype PartShape = PartShape(kind: Option<Bytes>, content: bool, id: bool, name: bool,
    arguments: Option<Shape>, response: Option<Option<Shape>>)

  function WordOf(vocabulary: set<Bytes>, s: Bytes): Option<Bytes>
  {
    if s == "" || s in vocabulary then Some(s) else None
  }

  predicate PartDecodes(p: ContentPart)
  {
    RawAccepted(p.arguments) && (p.response.Some? ==> RawAccepted(p.response.value))
  }

  function ShapeOfPart(p: ContentPart, keys: set<Bytes>): PartShape
    requires PartDecodes(p)
  {
    PartShape(WordOf(KINDS, p.kind), p.content != "", p.id != "", p.name != "", RawShape(p.arguments, keys),
              if p.response.None? then None else Some(RawShape(p.response.value, keys)))
  }

  predicate PartsDecode(parts: seq<ContentPart>) { forall i :: 0 <= i < |parts| ==> PartDecodes(parts[i]) }

  function ShapeOfParts(parts: seq<ContentPart>, keys: set<Bytes>): (r: seq<PartShape>)
    requires PartsDecode(parts)
    ensures |r| == |parts| && forall i :: 0 <= i < |parts| ==> r[i] == ShapeOfPart(parts[i], keys)
  {
    seq(|parts|, i requires 0 <= i < |parts| => ShapeOfPart(parts[i], keys))
  }

  datatype MessageShape = MessageShape(role: Option<Bytes>, parts: seq<PartShape>)

  function ShapeOfMessage(m: Message, keys: set<Bytes>): MessageShape
    requires PartsDecode(m.parts)
  {
    MessageShape(WordOf(ROLES, m.role), ShapeOfParts(m.parts, keys))
  }

  predicate MessagesDecode(ms: seq<Message>) { forall i :: 0 <= i < |ms| ==> PartsDecode(ms[i].parts) }

  function ShapeOfMessages(ms: seq<Message>, keys: set<Bytes>): (r: seq<MessageShape>)
    requires MessagesDecode(ms)
    ensures |r| == |ms| && forall i :: 0 <= i < |ms| ==> r[i] == ShapeOfMessage(ms[i], keys)
  {
    seq(|ms|, i requires 0 <= i < |ms| => ShapeOfMessage(ms[i], keys))
  }

  predicate PayloadDecodes(p: Payload) { PartsDecode(p.system) && MessagesDecode(p.input) && MessagesDecode(p.output) }

  lemma RedactedText(raw: Bytes, keys: set<Bytes>)
    requires RawAccepted(raw) && raw != []
    ensures var r := SanitizeRaw(RedactPolicy(keys), raw);
      r != [] && Parse(r) == Some(Redact(Decode(raw).value, keys))
  {
    hide Text, Decode, Marshals, Parse, Short;
    var hash: Hash := (s: Bytes) => seq(64, _ => '0');
    BuiltInLeavesShort(hash);
    SanitizedTextDecodes(raw, RedactLeaf(), keys);
    NothingParses();
  }

  lemma NothingParses()
    ensures Parse([]) == None
  {
  }

  /** Redacted raw texts are alike exactly when the texts have the same shape. */
  lemma RawIsShape(a: Bytes, b: Bytes, keys: set<Bytes>)
    requires RawAccepted(a) && RawAccepted(b)
    ensures SanitizeRaw(RedactPolicy(keys), a) == SanitizeRaw(RedactPolicy(keys), b)
        <==> RawShape(a, keys) == RawShape(b, keys)
  {
    hide Decode, Parse, ShapeOf, Redact, SanitizeText;
    if a != [] {
      RedactedText(a, keys);
    }
    if b != [] {
      RedactedText(b, keys);
    }
    if a != [] && b != [] {
      RedactionIsShape(Decode(a).value, Decode(b).value, keys);
      if RawShape(a, keys) == RawShape(b, keys) {
        SameRedaction(a, b, keys);
      }
    }
  }

  /** The redacted text depends on the redacted value alone. */
  lemma SameRedaction(a: Bytes, b: Bytes, keys: set<Bytes>)
    requires RawAccepted(a) && RawAccepted(b) && a != [] && b != []
    requires Redact(Decode(a).value, keys) == Redact(Decode(b).value, keys)
    ensures SanitizeRaw(RedactPolicy(keys), a) == SanitizeRaw(RedactPolicy(keys), b)
  {
    hide Decode, SanitizeValue, Text, Marshals;
  }

  lemma WordsDiffer()
    ensures REDACTED !in KINDS && REDACTED !in ROLES && REDACTED != ""
  {
    assert REDACTED[0] == '[' && "text"[0] == 't' && "image"[0] == 'i' && "image_url"[0] == 'i' && "audio"[0] == 'a';
    assert "video"[0] == 'v' && "file"[0] == 'f' && "tool_call"[0] == 't' && "tool_call_response"[0] == 't';
    assert "reasoning"[0] == 'r' && "system"[0] == 's' && "user"[0] == 'u' && "assistant"[0] == 'a';
    assert "tool"[0] == 't' && "developer"[0] == 'd' && "function"[0] == 'f';
  }

  lemma EnumIsWord(keys: set<Bytes>, vocabulary: set<Bytes>, s: Bytes, t: Bytes)
    requires REDACTED !in vocabulary && REDACTED != ""
    ensures Enum(RedactPolicy(keys), vocabulary, s) == Enum(RedactPolicy(keys), vocabulary, t)
        <==> WordOf(vocabulary, s) == WordOf(vocabulary, t)
  {
  }

  lemma PartIsShape(p: ContentPart, q: ContentPart, keys: set<Bytes>)
    requires PartDecodes(p) && PartDecodes(q)
    ensures SanitizePart(RedactPolicy(keys), p) == SanitizePart(RedactPolicy(keys), q)
        <==> ShapeOfPart(p, keys) == ShapeOfPart(q, keys)
  {
    hide RawShape, SanitizeRaw, RawAccepted, Enum, WordOf, KINDS, ROLES;
    WordsDiffer();
    EnumIsWord(keys, KINDS, p.kind, q.kind);
    RawIsShape(p.arguments, q.arguments, keys);
    if p.response.Some? && q.response.Some? {
      RawIsShape(p.response.value, q.response.value, keys);
    }
  }

  lemma PartsAreShape(a: seq<ContentPart>, b: seq<ContentPart>, keys: set<Bytes>)
    requires PartsDecode(a) && PartsDecode(b)
    ensures SanitizeParts(RedactPolicy(keys), a) == SanitizeParts(RedactPolicy(keys), b)
        <==> ShapeOfParts(a, keys) == ShapeOfParts(b, keys)
  {
    hide SanitizePart, ShapeOfPart, PartDecodes, SanitizeParts, ShapeOfParts;
    var ra, rb := SanitizeParts(RedactPolicy(keys), a), SanitizeParts(RedactPolicy(keys), b);
    var sa, sb := ShapeOfParts(a, keys), ShapeOfParts(b, keys);
    if |a| == |b| {
      forall i | 0 <= i < |a|
        ensures ra[i] == rb[i] <==> sa[i] == sb[i]
      {
        PartIsShape(a[i], b[i], keys);
      }
    }
  }

  lemma MessageIsShape(m: Message, n: Message, keys: set<Bytes>)
    requires PartsDecode(m.parts) && PartsDecode(n.parts)
    ensures SanitizeMessage(RedactPolicy(keys), m) == SanitizeMessage(RedactPolicy(keys), n)
        <==> ShapeOfMessage(m, keys) == ShapeOfMessage(n, keys)
  {
    hide SanitizeParts, ShapeOfParts, PartsDecode, Enum, WordOf, KINDS, ROLES;
    WordsDiffer();
    EnumIsWord(keys, ROLES, m.role, n.role);
    PartsAreShape(m.parts, n.parts, keys);
  }

  lemma MessagesAreShape(a: seq<Message>, b: seq<Message>, keys: set<Bytes>)
    requires MessagesDecode(a) && MessagesDecode(b)
    ensures SanitizeMessages(RedactPolicy(keys), a) == SanitizeMessages(RedactPolicy(keys), b)
        <==> ShapeOfMessages(a, keys) == ShapeOfMessages(b, keys)
  {
    hide SanitizeMessage, ShapeOfMessage, PartsDecode, SanitizeMessages, ShapeOfMessages;
    var ra, rb := SanitizeMessages(RedactPolicy(keys), a), SanitizeMessages(RedactPolicy(keys), b);
    var sa, sb := ShapeOfMessages(a, keys), ShapeOfMessages(b, keys);
    if |a| == |b| {
      forall i | 0 <= i < |a|
        ensures ra[i] == rb[i] <==> sa[i] == sb[i]
      {
        MessageIsShape(a[i], b[i], keys);
      }
    }
  }

  /** A redacted payload tells its skeleton and nothing else: two payloads become the same exactly
      when they have as many messages and parts, the same vocabulary, texts in the same places and
      JSON of the same allowlisted shape. */
  lemma RedactedPayloadIsSkeleton(p: Payload, q: Payload, keys: set<Bytes>)
    requires PayloadDecodes(p) && PayloadDecodes(q)
    ensures SanitizePayload(RedactPolicy(keys), p) == SanitizePayload(RedactPolicy(keys), q)
        <==> && ShapeOfParts(p.system, keys) == ShapeOfParts(q.system, keys)
             && ShapeOfMessages(p.input, keys) == ShapeOfMessages(q.input, keys)
             && ShapeOfMessages(p.output, keys) == ShapeOfMessages(q.output, keys)
  {
    hide SanitizeParts, ShapeOfParts, PartsDecode, SanitizeMessages, ShapeOfMessages, MessagesDecode;
    PartsAreShape(p.system, q.system, keys);
    MessagesAreShape(p.input, q.input, keys);
    MessagesAreShape(p.output, q.output, keys);
  }

  /** What input validation accepts decodes, so the skeleton is all that recording it can tell. */
  lemma AcceptedDecodes(p: Payload)
    requires Accepted(p, true)
    ensures PayloadDecodes(p)
  {
    hide ChannelDecodes, Decode, Valid, Inline, PartsBytes, MessagesBytes;
    forall i | 0 <= i < |p.system|
      ensures PartDecodes(p.system[i])
    {
      assert PartAccepted(p.system[i], true);
    }
    MessagesAcceptedDecode(p.input);
    MessagesAcceptedDecode(p.output);
  }

  lemma MessagesAcceptedDecode(ms: seq<Message>)
    requires MessagesAccepted(ms, true)
    ensures MessagesDecode(ms)
  {
    hide Decode, Valid, Inline;
    forall i, j | 0 <= i < |ms| && 0 <= j < |ms[i].parts|
      ensures PartDecodes(ms[i].parts[j])
    {
      assert PartAccepted(ms[i].parts[j], true);
    }
  }
}
