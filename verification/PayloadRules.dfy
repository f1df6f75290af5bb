/** The input rules of a payload (genai/bounded_json.go), asked of all its parts at once instead of
    channel by channel under a running budget. */
module PayloadRules {
  import opened Bytes
  import opened Utf8
  import opened JsonText
  import opened JsonTree
  import opened JsonDecode
  import opened Payload

  function PartsOf(ms: seq<Message>): seq<ContentPart>
  {
    if ms == [] then [] else ms[0].parts + PartsOf(ms[1..])
  }

  function RolesOf(ms: seq<Message>): seq<Bytes>
  {
    if ms == [] then [] else [ms[0].role] + RolesOf(ms[1..])
  }

  /** Every part of a payload, whatever its channel. */
  function AllParts(p: Payload): seq<ContentPart> { p.system + PartsOf(p.input) + PartsOf(p.output) }

  function AllRoles(p: Payload): seq<Bytes> { RolesOf(p.input) + RolesOf(p.output) }

  function TextBytes(texts: seq<Bytes>): nat { if texts == [] then 0 else |texts[0]| + TextBytes(texts[1..]) }

  function TextsOf(p: ContentPart): seq<Bytes>
  {
    [p.kind, p.content, p.id, p.name, p.arguments] + if p.response.None? then [] else [p.response.value]
  }

  function AllTexts(parts: seq<ContentPart>): seq<Bytes>
  {
    if parts == [] then [] else TextsOf(parts[0]) + AllTexts(parts[1..])
  }

  /** A media part whose body is not a reference to it. */
  predicate CarriesMedia(p: ContentPart)
  {
    && (p.kind == "image" || p.kind == "image_url" || p.kind == "audio" || p.kind == "video" || p.kind == "file")
    && p.content != "" && !StartsWith(p.content, "https://") && !StartsWith(p.content, "http://")
    && !StartsWith(p.content, "urn:")
  }

  predicate StartsWith(s: Bytes, head: Bytes) { |head| <= |s| && s[..|head|] == head }

  /** Raw JSON is absent or can be read. */
  predicate Readable(raw: Bytes) { raw != "" ==> Decode(raw).Ok? }

  ghost predicate PartFollowsRules(p: ContentPart, input: bool)
  {
    && Valid(p.kind) && Valid(p.content) && Valid(p.id) && Valid(p.name)
    && Readable(p.arguments) && (p.response.Some? ==> Readable(p.response.value))
    && (input ==> !CarriesMedia(p))
  }

  /** A payload is accepted exactly when it has at most 4096 entries and parts and 1 MiB of text, no
      part breaks a rule, every role is text and each channel can be written and read back. */
  lemma AcceptedMeans(p: Payload, input: bool)
    ensures Accepted(p, input) <==>
      && |p.system| <= 4096 && |p.input| <= 4096 && |p.output| <= 4096 && |AllParts(p)| <= 4096
      && TextBytes(AllTexts(AllParts(p))) + TextBytes(AllRoles(p)) <= 1048576
      && (forall part :: part in AllParts(p) ==> PartFollowsRules(part, input))
      && (forall role :: role in AllRoles(p) ==> Valid(role))
      && forall c :: ChannelDecodes(ChannelJson(p, c))
  {
    hide ChannelDecodes, ChannelJson, PartFollowsRules, PartAccepted, PartBytes, Valid, PartsBytes, MessagesBytes,
         MessagesParts, TextBytes, AllTexts, RolesOf, PartsOf, PartsAccepted;
    var a, b, c := p.system, PartsOf(p.input), PartsOf(p.output);
    PartsFollow(a, input);
    MessagesFollow(p.input, input);
    MessagesFollow(p.output, input);
    PartsFollow(b, input);
    PartsFollow(c, input);
    TextsConcat(a, b);
    TextsConcat(a + b, c);
    TextBytesConcat(RolesOf(p.input), RolesOf(p.output));
    assert forall part :: part in AllParts(p) <==> part in a || part in b || part in c;
    assert forall role :: role in AllRoles(p) <==> role in RolesOf(p.input) || role in RolesOf(p.output);
  }

  lemma {:induction false} TextBytesConcat(a: seq<Bytes>, b: seq<Bytes>)
    ensures TextBytes(a + b) == TextBytes(a) + TextBytes(b)
  {
    if a == [] {
      AddEmpty(b);
    } else {
      TextBytesConcat(a[1..], b);
      assert (a + b)[1..] == a[1..] + b;
    }
  }

  lemma {:induction false} TextsConcat(a: seq<ContentPart>, b: seq<ContentPart>)
    ensures TextBytes(AllTexts(a + b)) == TextBytes(AllTexts(a)) + TextBytes(AllTexts(b))
  {
    hide TextsOf, TextBytes;
    if a == [] {
      AddEmpty(b);
      NoTexts();
    } else {
      TextsConcat(a[1..], b);
      assert (a + b)[1..] == a[1..] + b;
      TextBytesConcat(TextsOf(a[0]), AllTexts(a[1..]));
      TextBytesConcat(TextsOf(a[0]), AllTexts(a[1..] + b));
    }
  }

  lemma NoTexts()
    ensures TextBytes([]) == 0
  {
  }

  lemma PartFollows(p: ContentPart, input: bool)
    ensures PartAccepted(p, input) <==> PartFollowsRules(p, input)
  {
    hide Valid, Decode, Inline, CarriesMedia;
    InlineCarries(p);
  }

  lemma InlineCarries(p: ContentPart)
    ensures Inline(p) <==> CarriesMedia(p)
  {
    hide StartsWith;
    StartsMeans(p.content, "https://");
    StartsMeans(p.content, "http://");
    StartsMeans(p.content, "urn:");
    assert p.kind in MEDIA <==>
      p.kind == "image" || p.kind == "image_url" || p.kind == "audio" || p.kind == "video" || p.kind == "file";
    assert p.content != [] <==> p.content != "";
    assert ("https://" <= p.content) <==> StartsWith(p.content, "https://");
    assert ("http://" <= p.content) <==> StartsWith(p.content, "http://");
    assert ("urn:" <= p.content) <==> StartsWith(p.content, "urn:");
  }

  lemma StartsMeans(s: Bytes, head: Bytes)
    ensures head <= s <==> StartsWith(s, head)
  {
  }

  lemma TextMore(s: Bytes, texts: seq<Bytes>)
    ensures TextBytes([s] + texts) == |s| + TextBytes(texts)
  {
    assert ([s] + texts)[1..] == texts;
  }

  lemma PartWeighs(p: ContentPart)
    ensures TextBytes(TextsOf(p)) == PartBytes(p)
  {
    hide TextBytes;
    var tail: seq<Bytes> := if p.response.None? then [] else [p.response.value];
    NoTexts();
    if p.response.Some? {
      TextMore(p.response.value, []);
      AddEmpty([p.response.value]);
    }
    TextMore(p.arguments, tail);
    TextMore(p.name, [p.arguments] + tail);
    TextMore(p.id, [p.name] + ([p.arguments] + tail));
    TextMore(p.content, [p.id] + ([p.name] + ([p.arguments] + tail)));
    TextMore(p.kind, [p.content] + ([p.id] + ([p.name] + ([p.arguments] + tail))));
    FiveFirst(p.kind, p.content, p.id, p.name, p.arguments, tail);
  }

  lemma FiveFirst<T>(a: T, b: T, c: T, d: T, e: T, rest: seq<T>)
    ensures [a] + ([b] + ([c] + ([d] + ([e] + rest)))) == [a, b, c, d, e] + rest
  {
  }

  lemma {:induction false} PartsFollow(parts: seq<ContentPart>, input: bool)
    ensures PartsAccepted(parts, input) <==> forall part :: part in parts ==> PartFollowsRules(part, input)
    ensures TextBytes(AllTexts(parts)) == PartsBytes(parts)
  {
    hide PartAccepted, PartFollowsRules, PartBytes, TextsOf, TextBytes;
    if parts == [] {
      NoTexts();
    } else {
      PartsFollow(parts[1..], input);
      PartFollows(parts[0], input);
      PartWeighs(parts[0]);
      TextBytesConcat(TextsOf(parts[0]), AllTexts(parts[1..]));
      assert parts == [parts[0]] + parts[1..];
      assert PartsAccepted(parts, input) <==> PartAccepted(parts[0], input) && PartsAccepted(parts[1..], input) by {
        assert forall i :: 0 <= i < |parts[1..]| ==> parts[1..][i] == parts[i + 1];
        assert forall i :: 0 < i < |parts| ==> parts[i] == parts[1..][i - 1];
      }
    }
  }

  lemma {:induction false} MessagesFollow(ms: seq<Message>, input: bool)
    ensures MessagesAccepted(ms, input) <==>
              (PartsAccepted(PartsOf(ms), input) && forall role :: role in RolesOf(ms) ==> Valid(role))
    ensures MessagesParts(ms) == |PartsOf(ms)|
    ensures MessagesBytes(ms) == PartsBytes(PartsOf(ms)) + TextBytes(RolesOf(ms))
  {
    hide PartAccepted, PartsBytes, PartsAccepted, Valid, MessagesAccepted;
    NoMessagesAccepted(input);
    if ms == [] {
      NoneAccepted(input);
    } else {
      MessagesFollow(ms[1..], input);
      PartsAppend(ms[0].parts, PartsOf(ms[1..]), input);
      MessagesHead(ms, input);
      assert RolesOf(ms) == [ms[0].role] + RolesOf(ms[1..]);
    }
  }

  lemma MessagesHead(ms: seq<Message>, input: bool)
    requires ms != []
    ensures MessagesAccepted(ms, input) <==>
              Valid(ms[0].role) && PartsAccepted(ms[0].parts, input) && MessagesAccepted(ms[1..], input)
  {
    hide PartsAccepted, Valid;
    assert forall i :: 0 <= i < |ms[1..]| ==> ms[1..][i] == ms[i + 1];
    assert forall i :: 0 < i < |ms| ==> ms[i] == ms[1..][i - 1];
  }

  lemma NoMessagesAccepted(input: bool)
    ensures MessagesAccepted([], input)
  {
  }

  lemma NoneAccepted(input: bool)
    ensures PartsAccepted([], input) && PartsBytes([]) == 0
  {
  }

  lemma PartsAppend(a: seq<ContentPart>, b: seq<ContentPart>, input: bool)
    ensures PartsAccepted(a + b, input) <==> PartsAccepted(a, input) && PartsAccepted(b, input)
    ensures PartsBytes(a + b) == PartsBytes(a) + PartsBytes(b)
  {
    hide PartAccepted, PartsBytes;
    PartsBytesSplit(a + b, |a|);
    DropTake(a, b);
    assert forall i :: 0 <= i < |a| ==> (a + b)[i] == a[i];
    assert forall i :: 0 <= i < |b| ==> (a + b)[|a| + i] == b[i];
  }
}
