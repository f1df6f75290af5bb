/** Truncation of JSON to a byte limit without ever cutting it (genai/bounded_json.go). */
module BoundedJson {
  import opened Bytes
  import opened Utf8
  import opened JsonText
  import opened JsonStrings
  import opened JsonTree
  import opened JsonDepth
  import opened JsonDecode
  import opened JsonLength

  const MARKER: Bytes := "{\"truncated\":true}"
  const DATA: Bytes := "data"
  const TRUNCATED: Bytes := "truncated"

  // ----- arrays

  /** The first k elements of an array within the limit when written. */
  predicate ArrayFits(items: seq<Json>, k: nat, limit: int)
    requires k <= |items| && MarshalsItems(items[..k])
  {
    Length(JArr(items[..k]), true) <= limit
  }

  predicate PrefixesMarshal(items: seq<Json>) {
    forall k :: 0 <= k <= |items| ==> MarshalsItems(items[..k])
  }

  /** The largest j <= k whose first j elements fit; 0 when none does. */
  function LongestArray(items: seq<Json>, k: nat, limit: int): (j: nat)
    requires k <= |items| && PrefixesMarshal(items)
    ensures j <= k
  {
    if k == 0 || ArrayFits(items, k, limit) then k else LongestArray(items, k - 1, limit)
  }

  /** A decoded array: its elements are values that were read. */
  ghost predicate Decoded(items: seq<Json>) {
    WellFormedItems(items) && CanonicalItems(items)
  }

  lemma DecodedPrefixes(items: seq<Json>)
    requires Decoded(items)
    ensures PrefixesMarshal(items) && items[..|items|] == items
    ensures forall j, k :: 0 <= j <= k <= |items| ==>
              Length(JArr(items[..j]), true) <= Length(JArr(items[..k]), true)
  {
    forall j, k | 0 <= j <= k <= |items|
      ensures MarshalsItems(items[..j]) && MarshalsItems(items[..k])
      ensures Length(JArr(items[..j]), true) <= Length(JArr(items[..k]), true)
    {
      PrefixItems(items, j, k);
      if j > 0 {
        assert items[..j] != [] && items[..k] != [];
      } else if k > 0 {
        PrefixItems(items, 1, k);
        assert items[..k] != [];
      }
    }
  }

  /** No longer prefix fits than the one kept. */
  lemma {:induction false} LongestArrayIsLongest(items: seq<Json>, k: nat, limit: int)
    requires k <= |items| && PrefixesMarshal(items)
    ensures var j := LongestArray(items, k, limit);
      && (j > 0 ==> ArrayFits(items, j, limit))
      && forall i :: j < i <= k ==> !ArrayFits(items, i, limit)
  {
    if k > 0 && !ArrayFits(items, k, limit) {
      LongestArrayIsLongest(items, k - 1, limit);
    }
  }

  /** The written prefix, its length and the longest prefix, for the search. */
  lemma ArrayPrefix(items: seq<Json>, k: nat, limit: int)
    requires Decoded(items) && PrefixesMarshal(items) && k <= |items|
    ensures Marshals(JArr(items[..k]))
    ensures |Text(JArr(items[..k]), true)| <= limit <==> ArrayFits(items, k, limit)
    ensures !ArrayFits(items, k, limit) ==> forall j :: k <= j <= |items| ==> !ArrayFits(items, j, limit)
  {
    DecodedPrefixes(items);
    LengthIsTextLength(JArr(items[..k]), true);
  }

  /** A prefix is the longest when it fits and no longer one does. */
  lemma {:induction false} LongestArrayUnique(items: seq<Json>, k: nat, limit: int, j: nat)
    requires j <= k <= |items| && PrefixesMarshal(items)
    requires j > 0 ==> ArrayFits(items, j, limit)
    requires forall i :: j < i <= k ==> !ArrayFits(items, i, limit)
    ensures LongestArray(items, k, limit) == j
  {
    if j < k {
      LongestArrayUnique(items, k - 1, limit, j);
    }
  }

  /** The text, and whether an element was left out; empty text means nothing to record. */
  function BoundedArray(value: Json, limit: int): Result<(Bytes, bool)>
  {
    if limit < |MARKER| then Err(TooSmall)
    else if !Marshals(value) then Err(InvalidEncoding)
    else
      var encoded := Text(value, true);
      match Decode(encoded)
      case Err(rule) => Err(rule)
      case Ok(JNull) => Ok(("", false))
      case Ok(JArr(items)) =>
        if items == [] then Ok(("", false))
        else if |encoded| <= limit then Ok((encoded, false))
        else
          DecodeSound(encoded);
          DecodedPrefixes(items);
          var k := LongestArray(items, |items|, limit);
          Ok((Text(JArr(items[..k]), true), k < |items|))
      case Ok(_) => Err(ArrayRequired)
  }

  method BoundedJSONArray(value: Json, limit: int) returns (r: Result<(Bytes, bool)>)
    ensures r == BoundedArray(value, limit)
  {
    hide Marshals, Text, Length, Decode, Decoded;
    if limit < |MARKER| {
      return Err(TooSmall);
    }
    if !Marshals(value) {
      return Err(InvalidEncoding);
    }
    var encoded := Text(value, true);
    var decoded := DecodePayloadJSON(encoded);
    if decoded.Err? {
      return Err(decoded.rule);
    }
    if decoded.value == JNull {
      return Ok(("", false));
    }
    if !decoded.value.JArr? {
      return Err(ArrayRequired);
    }
    var items := decoded.value.items;
    if items == [] {
      return Ok(("", false));
    }
    if |encoded| <= limit {
      return Ok((encoded, false));
    }
    DecodeSound(encoded);
    DecodedItems(decoded.value);
    DecodedPrefixes(items);
    EmptyArrayText();
    assert items[..0] == [];
    var best, retained := "[]", 0;
    var low, high := 0, |items|;
    while low <= high
      invariant 0 <= low <= high + 1 <= |items| + 1
      invariant retained == if low == 0 then 0 else low - 1
      invariant retained > 0 ==> ArrayFits(items, retained, limit)
      invariant Marshals(JArr(items[..retained])) && best == Text(JArr(items[..retained]), true)
      invariant forall j :: high < j <= |items| ==> !ArrayFits(items, j, limit)
    {
      var middle := low + (high - low) / 2;
      ArrayPrefix(items, middle, limit);
      var candidate := Text(JArr(items[..middle]), true);
      if |candidate| <= limit {
        best, retained, low := candidate, middle, middle + 1;
      } else {
        high := middle - 1;
      }
    }
    LongestArrayUnique(items, |items|, limit, retained);
    return Ok((best, retained < |items|));
  }

  lemma DecodedItems(v: Json)
    requires v.JArr? && WellFormed(v) && Canonical(v)
    ensures Decoded(v.items)
  {
  }

  lemma EmptyArrayText()
    ensures Marshals(JArr([])) && Text(JArr([]), true) == "[]"
  {
    RenderCons(Token(LBracket, "["), [Token(RBracket, "]")]);
    RenderOne(Token(RBracket, "]"));
  }

  /** What the result of an overflowing array means: the output decodes to the longest
      prefix of whole elements that fits, and the flag tells whether any was dropped. */
  lemma ArrayTruncation(value: Json, limit: int)
    requires |MARKER| <= limit <= MAX_BYTES && BoundedArray(value, limit).Ok?
    requires BoundedArray(value, limit).value.0 != []
    ensures Marshals(value) && Decode(Text(value, true)).Ok? && Decode(Text(value, true)).value.JArr?
    ensures var (out, flag) := BoundedArray(value, limit).value;
      var items := Decode(Text(value, true)).value.items;
      && |out| <= limit && Valid(out)
      && Decode(out).Ok? && Decode(out).value.JArr?
      && var kept := Decode(out).value.items;
         && kept <= items && (flag <==> kept != items)
         && (kept == items || |Text(value, true)| > limit)
         && Decoded(items) && PrefixesMarshal(items)
         && forall j :: |kept| < j <= |items| ==> !ArrayFits(items, j, limit)
  {
    var encoded := Text(value, true);
    var items := Decode(encoded).value.items;
    DecodeSound(encoded);
    TextValid(value, true);
    DecodedPrefixes(items);
    if |encoded| > limit {
      LongestArrayIsLongest(items, |items|, limit);
      var k := LongestArray(items, |items|, limit);
      PrefixItems(items, k, |items|);
      var kept := JArr(items[..k]);
      WellFormedMarshals(kept);
      CanonFixed(kept);
      LengthIsTextLength(kept, true);
      DecodeOfText(kept, true);
      TextValid(kept, true);
    }
  }

  // ----- envelopes

  /** Number of top-level elements or members. */
  function Count(v: Json): nat
  {
    match v
    case JArr(items) => |items|
    case JObj(members) => |members|
    case _ => 0
  }

  /** The first k elements, or members in key order; a scalar has no prefix but null. */
  function Prefix(v: Json, k: nat): Json
    requires k <= Count(v)
  {
    match v
    case JArr(items) => JArr(items[..k])
    case JObj(members) => JObj(members[..k])
    case _ => JNull
  }

  function Envelope(v: Json, k: nat): Json
    requires k <= Count(v)
  {
    JObj([Member(DATA, Prefix(v, k)), Member(TRUNCATED, JBool(true))])
  }

  /** The prefix meets the byte, node and depth limits together. */
  predicate Fits(v: Json, k: nat, limit: int)
    requires k <= Count(v) && Marshals(Envelope(v, k))
  {
    && Nodes(Envelope(v, k)) <= MAX_NODES
    && Length(Envelope(v, k), true) <= limit
    && Depth(Envelope(v, k)) <= MAX_DEPTH
  }

  predicate EnvelopesMarshal(v: Json) {
    forall k :: 0 <= k <= Count(v) ==> Marshals(Envelope(v, k))
  }

  /** No prefix of at least k elements fits. */
  predicate NoneFits(v: Json, k: nat, limit: int)
    requires EnvelopesMarshal(v)
  {
    forall j :: k <= j <= Count(v) ==> !Fits(v, j, limit)
  }

  /** The largest j <= k whose envelope fits, if any does. */
  function LongestEnvelope(v: Json, k: nat, limit: int): (j: Option<nat>)
    requires k <= Count(v) && EnvelopesMarshal(v)
    ensures j.Some? ==> j.value <= k
  {
    if Fits(v, k, limit) then Some(k) else if k == 0 then None else LongestEnvelope(v, k - 1, limit)
  }

  ghost predicate Read(v: Json) { WellFormed(v) && Canonical(v) }

  lemma {:induction false} LongestEnvelopeIsLongest(v: Json, k: nat, limit: int)
    requires k <= Count(v) && EnvelopesMarshal(v)
    ensures var j := LongestEnvelope(v, k, limit);
      && (j.Some? ==> Fits(v, j.value, limit))
      && forall i :: 0 <= i <= k && (j.Some? ==> j.value < i) ==> !Fits(v, i, limit)
  {
    if k > 0 && !Fits(v, k, limit) {
      LongestEnvelopeIsLongest(v, k - 1, limit);
    }
  }

  /** A longer prefix is never smaller in bytes, nodes or depth. */
  lemma EnvelopeMonotone(v: Json, j: nat, k: nat)
    requires Read(v) && j <= k <= Count(v)
    ensures Read(Prefix(v, j)) && Marshals(Prefix(v, j)) && Marshals(Prefix(v, k))
    ensures Length(Prefix(v, j), true) <= Length(Prefix(v, k), true)
    ensures Nodes(Prefix(v, j)) <= Nodes(Prefix(v, k))
    ensures Depth(Prefix(v, j)) <= Depth(Prefix(v, k))
  {
    match v {
      case JArr(items) =>
        PrefixItems(items, j, k);
        if j == 0 && k > 0 {
          PrefixItems(items, 1, k);
        }
      case JObj(members) =>
        PrefixMembers(members, j, k);
        if j == 0 && k > 0 {
          PrefixMembers(members, 1, k);
        }
      case _ =>
    }
  }

  lemma EnvelopeKeys()
    ensures Valid(DATA) && Valid(TRUNCATED) && Less(DATA, TRUNCATED)
    ensures |Escape(DATA, true)| == 4 && |Escape(TRUNCATED, true)| == 9
  {
    hide Escape, Valid;
    EscapePlain(DATA, true);
    EscapePlain(TRUNCATED, true);
    assert DATA[0] < TRUNCATED[0];
  }

  lemma TrueMeasures()
    ensures Read(JBool(true)) && Marshals(JBool(true))
    ensures Length(JBool(true), true) == 4 && Nodes(JBool(true)) == 1 && Depth(JBool(true)) == 0
  {
  }

  /** The measures of an envelope are those of its data plus a constant. */
  lemma EnvelopeMeasures(v: Json, k: nat)
    requires Read(v) && k <= Count(v)
    ensures Read(Envelope(v, k)) && Marshals(Envelope(v, k)) && Marshals(Prefix(v, k))
    ensures Length(Envelope(v, k), true) == Length(Prefix(v, k), true) + 26
    ensures Nodes(Envelope(v, k)) == Nodes(Prefix(v, k)) + 2
    ensures Depth(Envelope(v, k)) == Depth(Prefix(v, k)) + 1
  {
    hide Escape, Valid, Less, Length, Nodes, Depth, Read, Marshals;
    EnvelopeMonotone(v, k, k);
    EnvelopeKeys();
    TrueMeasures();
    TwoMembers(Member(DATA, Prefix(v, k)), Member(TRUNCATED, JBool(true)));
  }

  /** An object of two members in key order. */
  lemma TwoMembers(a: Member, b: Member)
    requires Read(a.value) && Read(b.value) && Valid(a.key) && Valid(b.key) && Less(a.key, b.key)
    ensures var v := JObj([a, b]);
      && Read(v) && Marshals(v) && Marshals(a.value) && Marshals(b.value)
      && Length(v, true) ==
        1 + |Escape(a.key, true)| + Length(a.value, true) + |Escape(b.key, true)| + Length(b.value, true) + 8
      && Nodes(v) == 1 + Nodes(a.value) + Nodes(b.value)
      && Depth(v) == 1 + Max(Depth(a.value), Depth(b.value))
  {
    WellFormedMarshals(a.value);
    WellFormedMarshals(b.value);
    MembersCons(b, []);
    MembersCons(a, [b]);
    assert [b] + [] == [b] && [a] + [b] == [a, b];
  }

  /** The measures of a member list, one member at a time. */
  lemma MembersCons(m: Member, ms: seq<Member>)
    requires Read(m.value) && Marshals(m.value) && Valid(m.key) && KeptMembers(ms) && MarshalsMembers(ms)
    ensures KeptMembers([m] + ms) && MarshalsMembers([m] + ms)
    ensures LengthMembers([m] + ms, true) == |Escape(m.key, true)| + Length(m.value, true) + 4 + LengthMembers(ms, true)
    ensures NodesMembers([m] + ms) == Nodes(m.value) + NodesMembers(ms)
    ensures DepthMembers([m] + ms) == Max(Depth(m.value), DepthMembers(ms))
  {
    assert ([m] + ms)[1..] == ms;
  }

  lemma FitsMonotone(v: Json, j: nat, k: nat, limit: int)
    requires Read(v) && j <= k <= Count(v)
    ensures Marshals(Envelope(v, j)) && Marshals(Envelope(v, k))
    ensures Fits(v, k, limit) ==> Fits(v, j, limit)
  {
    EnvelopeMeasures(v, j);
    EnvelopeMeasures(v, k);
    EnvelopeMonotone(v, j, k);
  }

  lemma EnvelopesAllMarshal(v: Json)
    requires Read(v)
    ensures EnvelopesMarshal(v)
  {
    forall k | 0 <= k <= Count(v)
      ensures Marshals(Envelope(v, k))
    {
      EnvelopeMeasures(v, k);
    }
  }

  /** The text that stands for a value over the limit. */
  function Overflow(v: Json, limit: int): Bytes
    requires EnvelopesMarshal(v)
  {
    match LongestEnvelope(v, Count(v), limit)
    case None => MARKER
    case Some(k) => Text(Envelope(v, k), true)
  }

  /** The text recorded for a value under a limit; empty text means nothing to record. */
  function Bounded(value: Json, limit: int): Result<Bytes>
  {
    if limit < |MARKER| then Err(TooSmall)
    else if !Marshals(value) then Err(InvalidEncoding)
    else
      var encoded := Text(value, true);
      if encoded == "null" || encoded == "[]" then Ok("")
      else
        match Decode(encoded)
        case Err(rule) => Err(rule)
        case Ok(v) =>
          if |encoded| <= limit then Ok(encoded)
          else
            DecodeSound(encoded);
            EnvelopesAllMarshal(v);
            Ok(Overflow(v, limit))
  }

  method BoundedJSON(value: Json, limit: int) returns (r: Result<Bytes>)
    ensures r == Bounded(value, limit)
  {
    hide Marshals, Text, Length, Decode, Nodes, Depth, Scan, Read, Envelope, Fits, NoneFits, Count;
    hide EnvelopesMarshal, Overflow, LongestEnvelope, WellFormed, Canonical;
    if limit < |MARKER| {
      return Err(TooSmall);
    }
    if !Marshals(value) {
      return Err(InvalidEncoding);
    }
    var buf := Text(value, true);
    if buf == "null" || buf == "[]" {
      return Ok("");
    }
    var shallow := BoundedJSONDepth(buf);
    if |buf| > MAX_BYTES || !shallow {
      DecodeRejects(buf);
      return Err(InputBounds);
    }
    var decoded := DecodePayloadJSON(buf);
    if decoded.Err? {
      return Err(decoded.rule);
    }
    if |buf| <= limit {
      return Ok(buf);
    }
    var v := decoded.value;
    DecodeSound(buf);
    DecodedRead(v);
    EnvelopesAllMarshal(v);
    var best := MARKER;
    var low, high := 0, Count(v);
    NoneBeyond(v, limit);
    while low <= high
      invariant 0 <= low <= high + 1 <= Count(v) + 1
      invariant best == BestSoFar(v, low)
      invariant low > 0 ==> FitsAt(v, low - 1, limit)
      invariant NoneFits(v, high + 1, limit)
    {
      var middle := low + (high - low) / 2;
      var envelope := Envelope(v, middle);
      EnvelopeSearch(v, middle, limit);
      var budget := new Budget(MAX_NODES);
      var within := JsonNodesWithinBudget(envelope, budget);
      if within {
        var candidate := Text(envelope, true);
        var ok := BoundedJSONDepth(candidate);
        if |candidate| <= limit && ok {
          best, low := candidate, middle + 1;
          continue;
        }
      }
      high := middle - 1;
    }
    LongestFound(v, limit, low);
    return Ok(best);
  }

  /** The text kept by the search once the prefixes below low were tried. */
  function BestSoFar(v: Json, low: nat): Bytes
    requires low <= Count(v) + 1 && EnvelopesMarshal(v)
  {
    if low == 0 then MARKER else Text(Envelope(v, low - 1), true)
  }

  predicate FitsAt(v: Json, k: nat, limit: int)
    requires EnvelopesMarshal(v) && k <= Count(v)
  {
    Fits(v, k, limit)
  }

  lemma NoneBeyond(v: Json, limit: int)
    requires EnvelopesMarshal(v)
    ensures NoneFits(v, Count(v) + 1, limit)
  {
    hide Count, Fits;
  }

  /** When nothing from low on fits and its predecessor does, the search has its answer. */
  lemma LongestFound(v: Json, limit: int, low: nat)
    requires EnvelopesMarshal(v) && low <= Count(v) + 1
    requires low > 0 ==> FitsAt(v, low - 1, limit)
    requires NoneFits(v, low, limit)
    ensures Overflow(v, limit) == BestSoFar(v, low)
  {
    hide Fits, Envelope, Text, Count;
    LongestEnvelopeUnique(v, Count(v), limit, low);
  }

  lemma DecodeRejects(raw: Bytes)
    requires |raw| > MAX_BYTES || !Scan(raw, 0, false, false)
    ensures Decode(raw) == Err(InputBounds)
  {
  }

  lemma DecodedRead(v: Json)
    requires WellFormed(v) && Canonical(v)
    ensures Read(v)
  {
  }

  /** What the search tests is whether the envelope fits; a failure rules out all longer ones. */
  lemma EnvelopeSearch(v: Json, k: nat, limit: int)
    requires Read(v) && EnvelopesMarshal(v) && k <= Count(v)
    ensures Marshals(Envelope(v, k))
    ensures (&& Nodes(Envelope(v, k)) <= MAX_NODES
             && |Text(Envelope(v, k), true)| <= limit
             && Scan(Text(Envelope(v, k), true), 0, false, false)) <==> FitsAt(v, k, limit)
    ensures !FitsAt(v, k, limit) ==> NoneFits(v, k, limit)
  {
    hide Read, Length, Nodes, Depth, Scan, Envelope, Text;
    EnvelopeText(v, k);
    forall j | k <= j <= Count(v)
      ensures Fits(v, j, limit) ==> Fits(v, k, limit)
    {
      FitsMonotone(v, k, j, limit);
    }
  }

  lemma {:induction false} LongestEnvelopeUnique(v: Json, k: nat, limit: int, low: nat)
    requires low <= k + 1 && k <= Count(v) && EnvelopesMarshal(v)
    requires low > 0 ==> Fits(v, low - 1, limit)
    requires forall j :: low <= j <= k ==> !Fits(v, j, limit)
    ensures LongestEnvelope(v, k, limit) == if low == 0 then None else Some(low - 1)
  {
    hide Fits, Envelope;
    if low <= k && k > 0 {
      LongestEnvelopeUnique(v, k - 1, limit, low);
    }
  }

  lemma EnvelopeText(v: Json, k: nat)
    requires Read(v) && k <= Count(v) && Marshals(Envelope(v, k))
    ensures |Text(Envelope(v, k), true)| == Length(Envelope(v, k), true)
    ensures Scan(Text(Envelope(v, k), true), 0, false, false) <==> Depth(Envelope(v, k)) <= MAX_DEPTH
  {
    EnvelopeMeasures(v, k);
    LengthIsTextLength(Envelope(v, k), true);
    PrintParse(Envelope(v, k), true);
    ScannerDecidesDepth(Text(Envelope(v, k), true));
  }

  const MARKER_VALUE: Json := JObj([Member(TRUNCATED, JBool(true))])

  lemma MarkerText()
    ensures Read(MARKER_VALUE) && Marshals(MARKER_VALUE) && Text(MARKER_VALUE, true) == MARKER
  {
    hide Tokens, Read, Marshals, StringOf, Render;
    TruncatedKey();
    MarkerTokens(TRUNCATED);
    MarkerRender(StringOf(TRUNCATED, true));
  }

  lemma TruncatedKey()
    ensures Valid(TRUNCATED) && StringOf(TRUNCATED, true).spelling == "\"truncated\""
  {
    hide StringOf, Escape, Valid;
    PlainString(TRUNCATED);
    assert "\"" + TRUNCATED + "\"" == "\"truncated\"";
  }

  lemma PlainString(s: Bytes)
    requires PlainText(s)
    ensures Valid(s) && StringOf(s, true).spelling == "\"" + s + "\""
  {
    EscapePlain(s, true);
  }

  lemma MarkerTokens(key: Bytes)
    requires Valid(key)
    ensures var v := JObj([Member(key, JBool(true))]);
      && Read(v) && Marshals(v)
      && Tokens(v, true) ==
        [Token(LBrace, "{")] + ([StringOf(key, true), Token(Colon, ":")] + [Token(True, "true")] + [Token(RBrace, "}")])
  {
    var m := Member(key, JBool(true));
    MembersCons(m, []);
    assert [m] + [] == [m];
    assert Tokens(m.value, true) == [Token(True, "true")];
    assert MemberTokens([m], true) ==
      [StringOf(key, true), Token(Colon, ":")] + [Token(True, "true")] + [Token(RBrace, "}")];
  }

  lemma MarkerRender(key: Token)
    requires key.spelling == "\"truncated\""
    ensures Render([Token(LBrace, "{")] + ([key, Token(Colon, ":")] + [Token(True, "true")] + [Token(RBrace, "}")])) ==
      MARKER
  {
    FlagRender(key);
    assert "{" + "\"truncated\"" + ":true}" == MARKER;
  }

  /** An object with one true member, rendered. */
  lemma FlagRender(key: Token)
    ensures Render([Token(LBrace, "{")] + ([key, Token(Colon, ":")] + [Token(True, "true")] + [Token(RBrace, "}")]))
         == "{" + key.spelling + ":true}"
  {
    var word, end := Token(True, "true"), Token(RBrace, "}");
    RenderCons(Token(LBrace, "{"), [key, Token(Colon, ":")] + [word] + [end]);
    RenderConcat([key, Token(Colon, ":")] + [word], [end]);
    RenderConcat([key, Token(Colon, ":")], [word]);
    RenderConcat([key], [Token(Colon, ":")]);
    assert [key] + [Token(Colon, ":")] == [key, Token(Colon, ":")];
    RenderOne(key);
    RenderOne(word);
    RenderOne(end);
    RenderOne(Token(Colon, ":"));
    assert ":true}" == ":" + ("true" + "}");
  }

  /** What stands for a value over the limit: the envelope of its longest prefix that meets
      all limits, otherwise the bare marker. */
  ghost predicate Abbreviates(v: Json, limit: int, d: Json)
    requires EnvelopesMarshal(v)
  {
    || (exists k :: 0 <= k <= Count(v) && d == Envelope(v, k) && Fits(v, k, limit) && NoneFits(v, k + 1, limit))
    || (d == MARKER_VALUE && NoneFits(v, 0, limit))
  }

  /** What is recorded for an encoded value: the text itself when it fits the limit, otherwise
      text that decodes to its abbreviation. */
  ghost predicate StandsFor(encoded: Bytes, limit: int, out: Bytes)
    requires Decode(encoded).Ok? && EnvelopesMarshal(Decode(encoded).value)
  {
    if |encoded| <= limit then out == encoded
    else Decode(out).Ok? && Abbreviates(Decode(encoded).value, limit, Decode(out).value)
  }

  lemma BoundedRepresents(value: Json, limit: int)
    requires |MARKER| <= limit <= MAX_BYTES && Bounded(value, limit).Ok? && Bounded(value, limit).value != []
    ensures Marshals(value) && Decode(Text(value, true)).Ok?
    ensures var encoded := Text(value, true);
      var out := Bounded(value, limit).value;
      && EnvelopesMarshal(Decode(encoded).value)
      && |out| <= limit && Valid(out) && Decode(out).Ok? && StandsFor(encoded, limit, out)
  {
    hide Marshals, Text, Decode, Read, Length, Nodes, Depth, Scan, Envelope, Canonical, WellFormed, Abbreviates;
    var encoded := Text(value, true);
    var v := Decode(encoded).value;
    DecodeSound(encoded);
    TextValid(value, true);
    DecodedRead(v);
    EnvelopesAllMarshal(v);
    if |encoded| > limit {
      OverflowAbbreviates(v, limit);
    }
  }

  lemma OverflowAbbreviates(v: Json, limit: int)
    requires Read(v) && EnvelopesMarshal(v) && |MARKER| <= limit <= MAX_BYTES
    ensures var out := Overflow(v, limit);
      |out| <= limit && Valid(out) && Decode(out).Ok? && Abbreviates(v, limit, Decode(out).value)
  {
    hide Marshals, Text, Decode, Read, Length, Nodes, Depth, Scan, Envelope, Fits, NoneFits, Count, LongestEnvelope;
    LongestIs(v, limit);
    match LongestEnvelope(v, Count(v), limit) {
      case Some(k) => FittingEnvelope(v, k, limit);
      case None => MarkerDecodes();
    }
  }

  lemma LongestIs(v: Json, limit: int)
    requires EnvelopesMarshal(v)
    ensures var j := LongestEnvelope(v, Count(v), limit);
      if j.Some? then Fits(v, j.value, limit) && NoneFits(v, j.value + 1, limit) else NoneFits(v, 0, limit)
  {
    hide Marshals, Envelope, Fits, Count;
    LongestEnvelopeIsLongest(v, Count(v), limit);
  }

  lemma FittingEnvelope(v: Json, k: nat, limit: int)
    requires Read(v) && k <= Count(v) && limit <= MAX_BYTES && Marshals(Envelope(v, k)) && Fits(v, k, limit)
    ensures var out := Text(Envelope(v, k), true);
      |out| <= limit && Valid(out) && Decode(out) == Ok(Envelope(v, k))
  {
    hide Read, Length, Nodes, Depth, Scan, Envelope;
    EnvelopeMeasures(v, k);
    EnvelopeText(v, k);
    DecodeRead(Envelope(v, k));
  }

  lemma MarkerDecodes()
    ensures Valid(MARKER) && Decode(MARKER) == Ok(MARKER_VALUE)
  {
    hide Text, Decode, Read, Marshals, Nodes, Depth;
    MarkerText();
    DecodeRead(MARKER_VALUE);
    FlagMeasures(Member(TRUNCATED, JBool(true)));
  }

  lemma FlagMeasures(m: Member)
    requires m.value == JBool(true)
    ensures Nodes(JObj([m])) == 2 && Depth(JObj([m])) == 1
  {
    assert [m][1..] == [];
    assert NodesMembers([m]) == Nodes(m.value) && DepthMembers([m]) == Depth(m.value);
  }

  /** A value that was read decodes back from its own text within the bounds. */
  lemma DecodeRead(v: Json)
    requires Read(v)
    ensures Marshals(v) && Valid(Text(v, true))
    ensures |Text(v, true)| <= MAX_BYTES && Depth(v) <= MAX_DEPTH && Nodes(v) <= MAX_NODES ==>
              Decode(Text(v, true)) == Ok(v)
  {
    WellFormedMarshals(v);
    CanonFixed(v);
    DecodeOfText(v, true);
    TextValid(v, true);
  }
}
