/** When a tool text leaves an attribute and what that attribute holds (genai/tool.go,
    genai/bounded_json.go), told by the text and the policy. */
module RecordedToolResults {
  import opened Bytes
  import opened Utf8
  import opened JsonText
  import opened JsonStrings
  import opened JsonTree
  import opened JsonDepth
  import opened JsonDecode
  import opened JsonLength
  import opened Sanitize
  import opened Payload
  import opened PayloadWire
  import opened PayloadBounds
  import opened BoundedJson
  import opened ToolPayload
  import PayloadGuards
  import Evidence

  /** What a policy shows of a tool text: raw JSON as it is, raw text as a JSON string, otherwise the
      sanitized value of JSON that can be read and a constant for anything else. */
  function ShownText(policy: Policy, raw: Bytes): Bytes
  {
    if policy.RawPolicy? then
      if Valid(raw) && Parse(raw).Some? then Text(JRaw(raw), true) else Text(JStr(raw), true)
    else if Decode(raw).Ok? then
      DecodeSound(raw);
      ShownMarshals(policy, raw);
      Text(SanitizeValue(Decode(raw).value, LeafOf(policy), KeysOf(policy)), true)
    else "{\"redacted\":true}"
  }

  lemma ShownMarshals(policy: Policy, raw: Bytes)
    requires !policy.RawPolicy? && Decode(raw).Ok?
    ensures var r := SanitizeValue(Decode(raw).value, LeafOf(policy), KeysOf(policy));
      && WellFormed(r) && Marshals(r) && SanitizeText(raw, LeafOf(policy), KeysOf(policy)) == Text(r, true)
      && Decode(Text(r, true)) == (if |Text(r, true)| <= MAX_BYTES then Ok(r) else Err(InputBounds))
  {
    hide Decode, Text, Marshals, Short, Parse;
    LeafShort(policy);
    DecodeSound(raw);
    SanitizeBounds(Decode(raw).value, LeafOf(policy), KeysOf(policy));
    SanitizedTextDecodes(raw, LeafOf(policy), KeysOf(policy));
  }

  lemma DecodedIsInput(t: Bytes)
    ensures Decode(t).Ok? ==> ToolInput(t) == None && Parse(t).Some? && Valid(t)
    ensures |t| > MAX_BYTES ==> ToolInput(t).Some?
  {
  }

  /** The attribute of a text that passes the check on its own. */
  lemma BoundedShown(t: Bytes, shown: Bytes, limit: int)
    requires |MARKER| <= limit <= MAX_BYTES && t != [] && ToolInput(t) == None
    requires Marshals(ToolValue(t)) && Text(ToolValue(t), true) == shown
    ensures var r := BoundedTool(t, limit);
      && (r.Ok? && r.value != [] <==> Decode(shown).Ok? && shown != "null" && shown != "[]")
      && (r.Ok? && r.value != [] ==>
            && Decode(shown).Ok? && EnvelopesMarshal(Decode(shown).value) && StandsFor(shown, limit, r.value))
  {
    hide Text, Decode, Parse, ToolInput, Marshals, StandsFor, Overflow, Valid;
    var value := ToolValue(t);
    if Bounded(value, limit).Ok? && Bounded(value, limit).value != [] {
      BoundedRepresents(value, limit);
    }
    if Decode(shown).Ok? && shown != "null" && shown != "[]" {
      BoundedNotEmpty(value, limit);
    }
  }

  lemma BoundedNotEmpty(value: Json, limit: int)
    requires |MARKER| <= limit <= MAX_BYTES && Marshals(value) && Decode(Text(value, true)).Ok?
    requires Text(value, true) != "null" && Text(value, true) != "[]"
    ensures Bounded(value, limit).Ok? && Bounded(value, limit).value != []
  {
    hide Text, Decode, Marshals, LongestEnvelope, Envelope;
    var encoded := Text(value, true);
    NothingDecodes();
    if |encoded| > limit {
      var v := Decode(encoded).value;
      DecodeSound(encoded);
      EnvelopesAllMarshal(v);
      OverflowNotEmpty(v, limit);
    }
  }

  lemma NothingDecodes()
    ensures Decode([]).Err?
  {
  }

  lemma OverflowNotEmpty(v: Json, limit: int)
    requires WellFormed(v) && Canonical(v) && EnvelopesMarshal(v)
    ensures Overflow(v, limit) != []
  {
    hide Text, Marshals, Envelope, LongestEnvelope;
    var k := LongestEnvelope(v, Count(v), limit);
    if k.Some? {
      LengthIsTextLength(Envelope(v, k.value), true);
      EnvelopeIsObject(v, k.value);
    }
  }

  lemma EnvelopeIsObject(v: Json, k: nat)
    requires k <= Count(v) && Marshals(Envelope(v, k))
    ensures Length(Envelope(v, k), true) > 0
  {
  }

  /** A text leaves an attribute exactly when recording is on, the check finds nothing wrong with it
      and what is shown of it is within the input bound and not empty; the attribute is what is shown,
      or its abbreviation under the limit. */
  lemma ToolResultIsProtected(cfg: Config, raw: Bytes)
    requires Evidence.ValidConfig(cfg)
    ensures var shown, text := ShownText(cfg.policy, raw), ToolAttribute(cfg, raw);
      && (text.Some? <==> && cfg.record && raw != "" && ToolInput(raw) == None && Decode(shown).Ok?
                          && shown != "null" && shown != "[]")
      && (text.Some? ==> EnvelopesMarshal(Decode(shown).value) && StandsFor(shown, cfg.limit, text.value))
  {
    hide Text, Decode, Parse, ToolInput, Marshals, StandsFor, BoundedTool, Valid, SanitizeValue;
    var shown := ShownText(cfg.policy, raw);
    if raw != "" && ToolInput(raw) == None {
      if cfg.policy.RawPolicy? {
        RawShown(raw);
        BoundedShown(raw, shown, cfg.limit);
      } else {
        SafeShown(cfg.policy, raw);
        DecodedIsInput(shown);
        if Decode(shown).Ok? {
          BoundedShown(shown, shown, cfg.limit);
        } else {
          RefusedTool(shown, cfg.limit);
        }
      }
    }
  }

  lemma RefusedTool(t: Bytes, limit: int)
    requires t != [] && ToolInput(t).Some?
    ensures BoundedTool(t, limit).Err?
  {
    hide ToolInput, Bounded;
  }

  lemma RawShown(raw: Bytes)
    requires ToolInput(raw) == None
    ensures Marshals(ToolValue(raw)) && Text(ToolValue(raw), true) == ShownText(RawPolicy, raw)
  {
    hide Text, Decode, Parse, Valid, ToolInput, Scan, Depth, Nodes;
    if Parse(raw).Some? {
      ToolInputOnJson(raw);
    }
  }

  lemma SafeShown(policy: Policy, raw: Bytes)
    requires !policy.RawPolicy? && raw != []
    ensures var shown := ShownText(policy, raw);
      && SanitizeTool(policy, raw) == shown && shown != []
      && (Decode(shown).Ok? <==> |shown| <= MAX_BYTES)
      && (Decode(shown).Ok? ==> Marshals(ToolValue(shown)) && Text(ToolValue(shown), true) == shown)
      && |shown| == PayloadGuards.SafeRaw(policy, raw)
  {
    hide Text, Decode, Parse, Marshals, SanitizeValue, Valid, WellFormed, PayloadGuards.SafeRaw;
    PayloadGuards.SafeRawExact(policy, raw);
    if Decode(raw).Ok? {
      ShownMarshals(policy, raw);
      var r := SanitizeValue(Decode(raw).value, LeafOf(policy), KeysOf(policy));
      ShownRewritten(r);
    } else {
      RedactedJsonDecodes();
      ConstantRewritten();
    }
    NothingDecodes();
    DecodedIsInput(ShownText(policy, raw));
  }

  lemma ShownRewritten(r: Json)
    requires WellFormed(r) && Marshals(r)
    ensures Text(r, true) != [] && Marshals(JRaw(Text(r, true))) && Text(JRaw(Text(r, true)), true) == Text(r, true)
  {
    hide Text, Marshals;
    RewriteSame(r);
    LengthIsTextLength(r, true);
    LengthPositive(r);
  }

  lemma ConstantRewritten()
    ensures Marshals(JRaw(REDACTED_JSON)) && Text(JRaw(REDACTED_JSON), true) == REDACTED_JSON
  {
    hide Text, Decode, Marshals, WellFormed;
    RedactedJsonDecodes();
    DecodeSound(REDACTED_JSON);
    RedactedIsText();
    RewriteSame(REDACTED_VALUE);
  }

  lemma RedactedIsText()
    ensures WellFormed(REDACTED_VALUE) && Marshals(REDACTED_VALUE) && Text(REDACTED_VALUE, true) == REDACTED_JSON
  {
    hide Text, Marshals, Valid;
    RedactedKey();
    BoundedJson.MarkerTokens("redacted");
    RedactedRender(StringOf("redacted", true));
    TextIsRender(REDACTED_VALUE);
  }
}
