/** Payloads of an interaction, their policies, their validation and the span attributes
    built from them (genai/helpers.go, genai/payload_policy.go, genai/bounded_json.go). */
module Payload {
  import opened Bytes
  import opened Utf8
  import opened JsonTree
  import opened JsonDecode
  import opened Sanitize
  import BoundedJson

  /** One content block. Empty arguments are omitted; a nil response is written as null. */
  datatype ContentPart = ContentPart(
    kind: Bytes, content: Bytes, id: Bytes, name: Bytes, arguments: Bytes, response: Option<Bytes>)

  datatype Message = Message(role: Bytes, parts: seq<ContentPart>)

  datatype Payload = Payload(system: seq<ContentPart>, input: seq<Message>, output: seq<Message>)

  // ----- wire form

  const TYPE: Bytes := "type"
  const CONTENT: Bytes := "content"
  const ID: Bytes := "id"
  const NAME: Bytes := "name"
  const ARGUMENTS: Bytes := "arguments"
  const RESPONSE: Bytes := "response"
  const ROLE: Bytes := "role"
  const PARTS: Bytes := "parts"

  function Optional(key: Bytes, present: bool, value: Json): seq<Member>
  {
    if present then [Member(key, value)] else []
  }

  function PartFields(p: ContentPart): seq<Member>
  {
    [Member(TYPE, JStr(p.kind)), Member(CONTENT, JStr(p.content))]
    + Optional(ID, p.id != [], JStr(p.id))
    + [Member(NAME, JStr(p.name))]
    + Optional(ARGUMENTS, p.arguments != [], JRaw(p.arguments))
    + [Member(RESPONSE, if p.response.None? then JNull else JRaw(p.response.value))]
  }

  function PartJson(p: ContentPart): Json { JObj(PartFields(p)) }

  function PartsJson(parts: seq<ContentPart>): (r: seq<Json>)
    ensures |r| == |parts|
  {
    if parts == [] then [] else [PartJson(parts[0])] + PartsJson(parts[1..])
  }

  function MessageJson(m: Message): Json
  {
    JObj([Member(ROLE, JStr(m.role)), Member(PARTS, JArr(PartsJson(m.parts)))])
  }

  function MessagesJson(ms: seq<Message>): (r: seq<Json>)
    ensures |r| == |ms|
  {
    if ms == [] then [] else [MessageJson(ms[0])] + MessagesJson(ms[1..])
  }

  /** The three controlled channels of a payload. */
  datatype Channel = SystemInstructions | InputMessages | OutputMessages

  const CHANNELS: seq<Channel> := [SystemInstructions, InputMessages, OutputMessages]

  /** A channel given to json.Marshal; an empty channel is a nil slice. */
  function ChannelJson(p: Payload, c: Channel): Json
  {
    match c
    case SystemInstructions => if p.system == [] then JNull else JArr(PartsJson(p.system))
    case InputMessages => if p.input == [] then JNull else JArr(MessagesJson(p.input))
    case OutputMessages => if p.output == [] then JNull else JArr(MessagesJson(p.output))
  }

  // ----- policies

  const KINDS: set<Bytes> := {"text", "image", "image_url", "audio", "video", "file", "tool_call",
                              "tool_call_response", "reasoning"}
  const ROLES: set<Bytes> := {"system", "user", "assistant", "tool", "developer", "function"}

  datatype Policy = RawPolicy | RedactPolicy(keys: set<Bytes>) | HashPolicy(hash: Hash)

  /** The protected form of free text; nothing stays nothing. */
  function Label(policy: Policy, s: Bytes): Bytes
  {
    match policy
    case RawPolicy => s
    case RedactPolicy(_) => if s == [] then [] else REDACTED
    case HashPolicy(hash) => if s == [] then [] else Fingerprint(hash, s)
  }

  /** Vocabulary stays literal. */
  function Enum(policy: Policy, vocabulary: set<Bytes>, s: Bytes): Bytes
  {
    if s == [] || s in vocabulary then s else Label(policy, s)
  }

  function LeafOf(policy: Policy): Leaf
    requires !policy.RawPolicy?
  {
    if policy.RedactPolicy? then RedactLeaf() else HashLeaf(policy.hash)
  }

  function KeysOf(policy: Policy): set<Bytes>
  {
    if policy.RedactPolicy? then policy.keys else {}
  }

  function SanitizeRaw(policy: Policy, raw: Bytes): Bytes
  {
    if policy.RawPolicy? || raw == [] then raw else SanitizeText(raw, LeafOf(policy), KeysOf(policy))
  }

  function SanitizePart(policy: Policy, p: ContentPart): ContentPart
  {
    ContentPart(
      Enum(policy, KINDS, p.kind), Label(policy, p.content), Label(policy, p.id), Label(policy, p.name),
      SanitizeRaw(policy, p.arguments),
      if p.response.None? then None else Some(SanitizeRaw(policy, p.response.value)))
  }

  function SanitizeParts(policy: Policy, parts: seq<ContentPart>): (r: seq<ContentPart>)
    ensures |r| == |parts|
    ensures forall i :: 0 <= i < |parts| ==> r[i] == SanitizePart(policy, parts[i])
  {
    if parts == [] then [] else [SanitizePart(policy, parts[0])] + SanitizeParts(policy, parts[1..])
  }

  function SanitizeMessage(policy: Policy, m: Message): Message
  {
    Message(Enum(policy, ROLES, m.role), SanitizeParts(policy, m.parts))
  }

  function SanitizeMessages(policy: Policy, ms: seq<Message>): (r: seq<Message>)
    ensures |r| == |ms|
    ensures forall i :: 0 <= i < |ms| ==> r[i] == SanitizeMessage(policy, ms[i])
  {
    if ms == [] then [] else [SanitizeMessage(policy, ms[0])] + SanitizeMessages(policy, ms[1..])
  }

  function SanitizePayload(policy: Policy, p: Payload): Payload
  {
    Payload(SanitizeParts(policy, p.system), SanitizeMessages(policy, p.input), SanitizeMessages(policy, p.output))
  }

  // ----- validation

  const MEDIA: set<Bytes> := {"image", "image_url", "audio", "video", "file"}

  /** A media body that is not an opaque reference. */
  predicate Inline(p: ContentPart)
  {
    p.kind in MEDIA && p.content != [] &&
    !("https://" <= p.content) && !("http://" <= p.content) && !("urn:" <= p.content)
  }

  predicate RawAccepted(raw: Bytes) { raw == [] || Decode(raw).Ok? }

  predicate PartAccepted(p: ContentPart, input: bool)
  {
    && Valid(p.kind) && Valid(p.content) && Valid(p.id) && Valid(p.name)
    && !(input && Inline(p))
    && RawAccepted(p.arguments) && (p.response.Some? ==> RawAccepted(p.response.value))
  }

  predicate PartsAccepted(parts: seq<ContentPart>, input: bool)
  {
    forall i :: 0 <= i < |parts| ==> PartAccepted(parts[i], input)
  }

  function PartBytes(p: ContentPart): nat
  {
    |p.kind| + |p.content| + |p.id| + |p.name| + |p.arguments|
    + if p.response.None? then 0 else |p.response.value|
  }

  function PartsBytes(parts: seq<ContentPart>): nat
  {
    if parts == [] then 0 else PartBytes(parts[0]) + PartsBytes(parts[1..])
  }

  predicate MessagesAccepted(ms: seq<Message>, input: bool)
  {
    forall i :: 0 <= i < |ms| ==> Valid(ms[i].role) && PartsAccepted(ms[i].parts, input)
  }

  function MessagesBytes(ms: seq<Message>): nat
  {
    if ms == [] then 0 else |ms[0].role| + PartsBytes(ms[0].parts) + MessagesBytes(ms[1..])
  }

  function MessagesParts(ms: seq<Message>): nat
  {
    if ms == [] then 0 else |ms[0].parts| + MessagesParts(ms[1..])
  }

  predicate ChannelDecodes(v: Json)
  {
    Marshals(v) && Decode(Text(v, true)).Ok?
  }

  /** Everything but the channels is accepted. */
  predicate ContentAccepted(p: Payload, input: bool)
  {
    && |p.system| <= MAX_NODES && |p.input| <= MAX_NODES && |p.output| <= MAX_NODES
    && PartsAccepted(p.system, input) && MessagesAccepted(p.input, input) && MessagesAccepted(p.output, input)
    && |p.system| + MessagesParts(p.input) + MessagesParts(p.output) <= MAX_NODES
    && PartsBytes(p.system) + MessagesBytes(p.input) + MessagesBytes(p.output) <= MAX_BYTES
  }

  /** Everything validatePayloadEncodingBounds asks of a payload. */
  predicate Accepted(p: Payload, input: bool)
  {
    ContentAccepted(p, input) && forall c :: ChannelDecodes(ChannelJson(p, c))
  }

  lemma {:induction false} PartsBytesSplit(parts: seq<ContentPart>, i: nat)
    requires i <= |parts|
    ensures PartsBytes(parts) == PartsBytes(parts[..i]) + PartsBytes(parts[i..])
  {
    if i > 0 {
      PartsBytesSplit(parts[1..], i - 1);
      assert parts[..i][1..] == parts[1..][..i - 1];
    }
  }

  lemma {:induction false} MessagesSplit(ms: seq<Message>, i: nat)
    requires i <= |ms|
    ensures MessagesBytes(ms) == MessagesBytes(ms[..i]) + MessagesBytes(ms[i..])
    ensures MessagesParts(ms) == MessagesParts(ms[..i]) + MessagesParts(ms[i..])
  {
    if i > 0 {
      MessagesSplit(ms[1..], i - 1);
      assert ms[..i][1..] == ms[1..][..i - 1];
    }
  }

  /** The running totals of the input check. */
  class InputBudget {
    var bytes: int
    var parts: int

    constructor ()
      ensures bytes == 0 && parts == 0
    {
      bytes, parts := 0, 0;
    }

    method AddParts(items: seq<ContentPart>, input: bool) returns (ok: bool)
      requires bytes <= MAX_BYTES
      modifies this
      ensures ok <==> && old(parts) + |items| <= MAX_NODES && PartsAccepted(items, input)
                      && old(bytes) + PartsBytes(items) <= MAX_BYTES
      ensures ok ==> parts == old(parts) + |items| && bytes == old(bytes) + PartsBytes(items)
    {
      hide PartAccepted, RawAccepted, Decode, Valid, Inline, PartBytes;
      parts := parts + |items|;
      if parts > MAX_NODES {
        return false;
      }
      var i := 0;
      while i < |items|
        invariant 0 <= i <= |items|
        invariant parts == old(parts) + |items| && bytes <= MAX_BYTES
        invariant bytes + PartsBytes(items[i..]) == old(bytes) + PartsBytes(items)
        invariant PartsAccepted(items[..i], input)
      {
        var part := items[i];
        PartsBytesSplit(items, i);
        PartChecks(part, input);
        if !StringsValid(part) || (input && Inline(part)) {
          assert !PartAccepted(items[i], input);
          return false;
        }
        bytes := bytes + PartBytes(part);
        if bytes > MAX_BYTES {
          return false;
        }
        var first := RawDecodes(part.arguments);
        if !first {
          assert !PartAccepted(items[i], input);
          return false;
        }
        if part.response.Some? {
          var second := RawDecodes(part.response.value);
          if !second {
            assert !PartAccepted(items[i], input);
            return false;
          }
        }
        assert items[..i + 1] == items[..i] + [part];
        i := i + 1;
      }
      assert items[..i] == items;
      return true;
    }
  }

  predicate StringsValid(p: ContentPart) { Valid(p.kind) && Valid(p.content) && Valid(p.id) && Valid(p.name) }

  lemma PartChecks(p: ContentPart, input: bool)
    ensures PartAccepted(p, input) <==>
      && StringsValid(p) && !(input && Inline(p))
      && RawAccepted(p.arguments) && (p.response.Some? ==> RawAccepted(p.response.value))
  {
  }

  method RawDecodes(raw: Bytes) returns (ok: bool)
    ensures ok <==> RawAccepted(raw)
  {
    if raw == [] {
      return true;
    }
    var r := DecodePayloadJSON(raw);
    return r.Ok?;
  }

  /** The messages before the i-th pass on top of the counts so far, and its role is not text. */
  ghost predicate BadRoleAt(ms: seq<Message>, i: int, bytes: int, parts: int, input: bool)
  {
    && 0 <= i < |ms| && !Valid(ms[i].role) && MessagesAccepted(ms[..i], input)
    && parts + MessagesParts(ms[..i]) <= MAX_NODES && bytes + MessagesBytes(ms[..i]) <= MAX_BYTES
  }

  ghost predicate BadRole(ms: seq<Message>, bytes: int, parts: int, input: bool)
  {
    exists i :: BadRoleAt(ms, i, bytes, parts, input)
  }

  /** A channel that cannot be written comes before any that cannot be read back. */
  ghost predicate Unwritable(p: Payload)
  {
    exists k :: 0 <= k < |CHANNELS| && !Marshals(ChannelJson(p, CHANNELS[k]))
                && forall j :: 0 <= j < k ==> ChannelDecodes(ChannelJson(p, CHANNELS[j]))
  }

  /** The first thing wrong with a payload is its encoding rather than its size: a role, or a
      channel that cannot be written. */
  ghost predicate BadEncoding(p: Payload, input: bool)
  {
    && |p.system| <= MAX_NODES && |p.input| <= MAX_NODES && |p.output| <= MAX_NODES
    && PartsAccepted(p.system, input) && PartsBytes(p.system) <= MAX_BYTES
    && (|| BadRole(p.input, PartsBytes(p.system), |p.system|, input)
        || (&& MessagesAccepted(p.input, input) && |p.system| + MessagesParts(p.input) <= MAX_NODES
            && PartsBytes(p.system) + MessagesBytes(p.input) <= MAX_BYTES
            && BadRole(p.output, PartsBytes(p.system) + MessagesBytes(p.input),
                       |p.system| + MessagesParts(p.input), input))
        || (ContentAccepted(p, input) && Unwritable(p)))
  }

  /** Accepts exactly the payloads within all bounds; the rule of a rejection tells what was
      wrong first. */
  method ValidatePayloadEncodingBounds(p: Payload, input: bool) returns (r: Option<Rule>)
    ensures r == None <==> Accepted(p, input)
    ensures r == Some(InvalidEncoding) <==> BadEncoding(p, input)
    ensures r in {None, Some(InvalidEncoding), Some(InputBounds)}
  {
    hide PartsAccepted, ChannelDecodes, ChannelJson, Valid, BadRole, Unwritable, PartsBytes, MessagesBytes;
    if |p.system| > MAX_NODES || |p.input| > MAX_NODES || |p.output| > MAX_NODES {
      return Some(InputBounds);
    }
    var budget := new InputBudget();
    var ok := budget.AddParts(p.system, input);
    if !ok {
      return Some(InputBounds);
    }
    r := AddMessages(budget, p.input, input);
    if r.Some? {
      MoreBytes(p.output);
      return;
    }
    r := AddMessages(budget, p.output, input);
    if r.Some? {
      return;
    }
    r := ValidatePayloadChannels(p);
  }

  lemma {:induction false} MoreBytes(ms: seq<Message>)
    ensures MessagesBytes(ms) >= 0 && MessagesParts(ms) >= 0
  {
  }

  method ValidatePayloadChannels(p: Payload) returns (r: Option<Rule>)
    ensures r == None <==> forall c :: ChannelDecodes(ChannelJson(p, c))
    ensures r == Some(InvalidEncoding) <==> Unwritable(p)
    ensures r in {None, Some(InvalidEncoding), Some(InputBounds)}
  {
    hide ChannelDecodes, ChannelJson, Marshals;
    var i := 0;
    while i < |CHANNELS|
      invariant 0 <= i <= |CHANNELS|
      invariant forall j :: 0 <= j < i ==> ChannelDecodes(ChannelJson(p, CHANNELS[j]))
    {
      r := Encodes(ChannelJson(p, CHANNELS[i]));
      if r.Some? {
        FirstFailing(p, i);
        return;
      }
      i := i + 1;
    }
    AllDecode(p);
    return None;
  }

  /** Whether the first channel that does not decode can be written decides the rule. */
  lemma FirstFailing(p: Payload, i: nat)
    requires i < |CHANNELS| && !ChannelDecodes(ChannelJson(p, CHANNELS[i]))
    requires forall j :: 0 <= j < i ==> ChannelDecodes(ChannelJson(p, CHANNELS[j]))
    ensures Unwritable(p) <==> !Marshals(ChannelJson(p, CHANNELS[i]))
  {
    hide Decode, Text, ChannelJson, Marshals;
  }

  lemma AllDecode(p: Payload)
    requires forall j :: 0 <= j < |CHANNELS| ==> ChannelDecodes(ChannelJson(p, CHANNELS[j]))
    ensures (forall c :: ChannelDecodes(ChannelJson(p, c))) && !Unwritable(p)
  {
    hide Decode, Text, ChannelJson, Marshals;
    forall c: Channel
      ensures ChannelDecodes(ChannelJson(p, c))
    {
      assert c == CHANNELS[0] || c == CHANNELS[1] || c == CHANNELS[2];
    }
  }

  method Encodes(v: Json) returns (r: Option<Rule>)
    ensures r == None <==> ChannelDecodes(v)
    ensures r == Some(InvalidEncoding) <==> !Marshals(v)
    ensures r in {None, Some(InvalidEncoding), Some(InputBounds)}
  {
    hide Text, Decode, Marshals;
    if !Marshals(v) {
      return Some(InvalidEncoding);
    }
    var decoded := DecodePayloadJSON(Text(v, true));
    DecodeOfText(v, true);
    return if decoded.Ok? then None else Some(decoded.rule);
  }

  method AddMessages(budget: InputBudget, ms: seq<Message>, input: bool) returns (r: Option<Rule>)
    requires budget.bytes <= MAX_BYTES && budget.parts <= MAX_NODES
    modifies budget
    ensures r == None <==> && old(budget.parts) + MessagesParts(ms) <= MAX_NODES && MessagesAccepted(ms, input)
                           && old(budget.bytes) + MessagesBytes(ms) <= MAX_BYTES
    ensures r == None ==> && budget.parts == old(budget.parts) + MessagesParts(ms)
                          && budget.bytes == old(budget.bytes) + MessagesBytes(ms)
    ensures r == Some(InvalidEncoding) <==> BadRole(ms, old(budget.bytes), old(budget.parts), input)
    ensures r in {None, Some(InvalidEncoding), Some(InputBounds)}
  {
    hide PartsAccepted, Valid, PartsBytes, MessagesBytes, MessagesParts, MessagesAccepted, BadRole;
    ghost var bytes, parts := budget.bytes, budget.parts;
    var i := 0;
    NoMessages();
    assert ms[..0] == [];
    while i < |ms|
      invariant 0 <= i <= |ms|
      invariant budget.bytes <= MAX_BYTES && budget.parts <= MAX_NODES
      invariant budget.bytes == bytes + MessagesBytes(ms[..i])
      invariant budget.parts == parts + MessagesParts(ms[..i])
      invariant MessagesAccepted(ms[..i], input)
    {
      var message := ms[i];
      MessagesSnoc(ms, i, input);
      if !Valid(message.role) {
        RoleStops(ms, i, bytes, parts, input);
        return Some(InvalidEncoding);
      }
      budget.bytes := budget.bytes + |message.role|;
      if budget.bytes > MAX_BYTES {
        BoundStops(ms, i, bytes, parts, input);
        return Some(InputBounds);
      }
      var added := budget.AddParts(message.parts, input);
      if !added {
        BoundStops(ms, i, bytes, parts, input);
        return Some(InputBounds);
      }
      i := i + 1;
    }
    assert ms[..i] == ms;
    GoodRoles(ms, bytes, parts, input);
    return None;
  }

  lemma NoMessages()
    ensures MessagesBytes([]) == 0 && MessagesParts([]) == 0 && MessagesJson([]) == []
    ensures forall input :: MessagesAccepted([], input)
  {
  }

  /** What one more message adds to a prefix. */
  lemma MessagesSnoc(ms: seq<Message>, i: nat, input: bool)
    requires i < |ms|
    ensures MessagesBytes(ms[..i + 1]) == MessagesBytes(ms[..i]) + |ms[i].role| + PartsBytes(ms[i].parts)
    ensures MessagesParts(ms[..i + 1]) == MessagesParts(ms[..i]) + |ms[i].parts|
    ensures MessagesAccepted(ms[..i + 1], input) <==>
              MessagesAccepted(ms[..i], input) && Valid(ms[i].role) && PartsAccepted(ms[i].parts, input)
  {
    hide PartsAccepted, Valid, PartsBytes;
    MessagesSplit(ms[..i + 1], i);
    assert ms[..i + 1][..i] == ms[..i] && ms[..i + 1][i..] == [ms[i]];
    OneMessage(ms[i]);
    assert forall j :: 0 <= j < i ==> ms[..i + 1][j] == ms[..i][j];
    assert ms[..i + 1][i] == ms[i];
  }

  lemma OneMessage(m: Message)
    ensures MessagesBytes([m]) == |m.role| + PartsBytes(m.parts) && MessagesParts([m]) == |m.parts|
  {
    hide PartsBytes;
    assert [m][1..] == [];
  }

  /** A prefix is never larger than a longer one, and accepted with it. */
  lemma PrefixGrows(ms: seq<Message>, i: nat, j: nat, input: bool)
    requires i <= j <= |ms|
    ensures MessagesBytes(ms[..i]) <= MessagesBytes(ms[..j]) && MessagesParts(ms[..i]) <= MessagesParts(ms[..j])
    ensures MessagesAccepted(ms[..j], input) ==> MessagesAccepted(ms[..i], input)
  {
    hide PartsAccepted, Valid, PartsBytes, MessagesBytes, MessagesParts;
    MessagesSplit(ms[..j], i);
    assert ms[..j][..i] == ms[..i];
    assert forall k :: 0 <= k < i ==> ms[..i][k] == ms[..j][k];
  }

  lemma RoleStops(ms: seq<Message>, i: nat, bytes: int, parts: int, input: bool)
    requires i < |ms| && !Valid(ms[i].role) && MessagesAccepted(ms[..i], input)
    requires parts + MessagesParts(ms[..i]) <= MAX_NODES && bytes + MessagesBytes(ms[..i]) <= MAX_BYTES
    ensures BadRole(ms, bytes, parts, input)
    ensures !MessagesAccepted(ms, input)
  {
    hide MessagesParts, MessagesBytes, Valid, PartsAccepted;
    assert BadRoleAt(ms, i, bytes, parts, input);
  }

  /** A message that breaks a bound ends the check before any later role is looked at. */
  lemma BoundStops(ms: seq<Message>, i: nat, bytes: int, parts: int, input: bool)
    requires i < |ms| && Valid(ms[i].role) && MessagesAccepted(ms[..i], input)
    requires !PartsAccepted(ms[i].parts, input) || parts + MessagesParts(ms[..i + 1]) > MAX_NODES
             || bytes + MessagesBytes(ms[..i + 1]) > MAX_BYTES
    ensures !BadRole(ms, bytes, parts, input)
    ensures !(MessagesAccepted(ms, input) && parts + MessagesParts(ms) <= MAX_NODES
      && bytes + MessagesBytes(ms) <= MAX_BYTES)
  {
    hide MessagesParts, MessagesBytes, Valid, PartsAccepted, PartsBytes, MessagesAccepted;
    MessagesSnoc(ms, i, input);
    PrefixGrows(ms, i + 1, |ms|, input);
    assert ms[..|ms|] == ms;
    forall j
      ensures !BadRoleAt(ms, j, bytes, parts, input)
    {
      if 0 <= j <= i {
        PrefixRole(ms, i, j, input);
      } else if i < j < |ms| {
        PrefixGrows(ms, i + 1, j, input);
      }
    }
  }

  lemma PrefixRole(ms: seq<Message>, i: nat, j: nat, input: bool)
    requires j <= i < |ms| && Valid(ms[i].role) && MessagesAccepted(ms[..i], input)
    ensures Valid(ms[j].role)
  {
    hide Valid, PartsAccepted;
    if j < i {
      assert ms[..i][j] == ms[j];
    }
  }

  lemma GoodRoles(ms: seq<Message>, bytes: int, parts: int, input: bool)
    requires MessagesAccepted(ms, input)
    ensures !BadRole(ms, bytes, parts, input)
  {
    hide Valid, PartsAccepted, MessagesParts, MessagesBytes;
  }

  // ----- attributes

  datatype Config = Config(record: bool, policy: Policy, limit: int)

  datatype Attribute = Value(channel: Channel, text: Bytes) | Truncated(channel: Channel)

  /** The attributes of one channel, or nothing when encoding failed. */
  function ChannelAttributes(p: Payload, c: Channel, limit: int): Option<seq<Attribute>>
  {
    match BoundedJson.BoundedArray(ChannelJson(p, c), limit)
    case Err(_) => None
    case Ok((text, truncated)) =>
      if text == [] then Some([])
      else if truncated then Some([Value(c, text), Truncated(c)])
      else Some([Value(c, text)])
  }

  function ChannelsAttributes(p: Payload, cs: seq<Channel>, limit: int): Option<seq<Attribute>>
  {
    if cs == [] then Some([])
    else
      match ChannelAttributes(p, cs[0], limit)
      case None => None
      case Some(a) =>
        match ChannelsAttributes(p, cs[1..], limit)
        case None => None
        case Some(rest) => Some(a + rest)
  }

  /** The attributes recorded for a payload; None when the payload is rejected. */
  function PayloadAttributes(cfg: Config, p: Payload): Option<seq<Attribute>>
  {
    if !cfg.record then Some([])
    else if !Accepted(p, true) then None
    else
      var safe := SanitizePayload(cfg.policy, p);
      if !Accepted(safe, false) then None else ChannelsAttributes(safe, CHANNELS, cfg.limit)
  }

  lemma {:induction false} ChannelsSplit(p: Payload, cs: seq<Channel>, i: nat, limit: int)
    requires i <= |cs|
    ensures ChannelsAttributes(p, cs, limit) ==
      (match (ChannelsAttributes(p, cs[..i], limit), ChannelsAttributes(p, cs[i..], limit))
       case (Some(a), Some(b)) => Some(a + b)
       case _ => None)
  {
    hide ChannelAttributes;
    if i > 0 {
      ChannelsSplit(p, cs[1..], i - 1, limit);
      assert cs[..i][1..] == cs[1..][..i - 1];
      match (ChannelAttributes(p, cs[0], limit), ChannelsAttributes(p, cs[1..][..i - 1], limit),
             ChannelsAttributes(p, cs[i..], limit)) {
        case (Some(a), Some(b), Some(c)) => Assoc(a, b, c);
        case _ =>
      }
    } else {
      match ChannelsAttributes(p, cs, limit) {
        case Some(a) => AddEmpty(a);
        case None =>
      }
    }
  }

  method BuildPayloadAttributes(cfg: Config, payload: Payload) returns (r: Option<seq<Attribute>>)
    ensures r == PayloadAttributes(cfg, payload)
  {
    hide Accepted, ChannelAttributes;
    if !cfg.record {
      return Some([]);
    }
    var rule := ValidatePayloadEncodingBounds(payload, true);
    if rule.Some? {
      return None;
    }
    var safe := SanitizePayload(cfg.policy, payload);
    rule := ValidatePayloadEncodingBounds(safe, false);
    if rule.Some? {
      return None;
    }
    var attrs: seq<Attribute> := [];
    var i := 0;
    while i < |CHANNELS|
      invariant 0 <= i <= |CHANNELS|
      invariant ChannelsAttributes(safe, CHANNELS[..i], cfg.limit) == Some(attrs)
    {
      var next := AppendChannel(safe, CHANNELS[i], cfg.limit, attrs);
      ChannelsStep(safe, CHANNELS, i, cfg.limit);
      if next == None {
        return None;
      }
      attrs := next.value;
      i := i + 1;
    }
    assert CHANNELS[..i] == CHANNELS;
    return Some(attrs);
  }

  method AppendChannel(p: Payload, c: Channel, limit: int, attrs: seq<Attribute>)
    returns (r: Option<seq<Attribute>>)
    ensures r == if ChannelAttributes(p, c, limit).None? then None
      else Some(attrs + ChannelAttributes(p, c, limit).value)
  {
    hide BoundedJson.BoundedArray, ChannelJson;
    var bounded := BoundedJson.BoundedJSONArray(ChannelJson(p, c), limit);
    if bounded.Err? {
      return None;
    }
    var (text, truncated) := bounded.value;
    var out := attrs;
    if text != [] {
      out := out + [Value(c, text)];
      if truncated {
        out := out + [Truncated(c)];
        assert out == attrs + [Value(c, text), Truncated(c)];
      }
    } else {
      AddEmpty(attrs);
    }
    return Some(out);
  }

  /** Extending a prefix of the channels by one; a failing channel fails the whole. */
  lemma ChannelsStep(p: Payload, cs: seq<Channel>, i: nat, limit: int)
    requires i < |cs| && ChannelsAttributes(p, cs[..i], limit).Some?
    ensures ChannelAttributes(p, cs[i], limit).None? ==> ChannelsAttributes(p, cs, limit).None?
    ensures ChannelAttributes(p, cs[i], limit).Some? ==>
              (ChannelsAttributes(p, cs[..i + 1], limit)
               == Some(ChannelsAttributes(p, cs[..i], limit).value + ChannelAttributes(p, cs[i], limit).value))
  {
    hide ChannelAttributes;
    ChannelsSplit(p, cs, i, limit);
    ChannelsSplit(p, cs[..i + 1], i, limit);
    assert cs[..i + 1][..i] == cs[..i] && cs[..i + 1][i..] == [cs[i]];
    OneChannel(p, cs[i], limit);
  }

  lemma OneChannel(p: Payload, c: Channel, limit: int)
    ensures ChannelsAttributes(p, [c], limit) == ChannelAttributes(p, c, limit)
  {
    hide ChannelAttributes;
    assert [c][1..] == [];
    match ChannelAttributes(p, c, limit) {
      case Some(a) => AddEmpty(a);
      case None =>
    }
  }
}
