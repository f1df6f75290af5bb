/** Arguments and results of tool calls: JSON or plain text (genai/bounded_json.go). */
module ToolPayload {
  import opened Bytes
  import opened Utf8
  import opened JsonText
  import opened JsonTree
  import opened JsonDepth
  import opened JsonDecode
  import opened BoundedJson
  import Payload
  import Evidence

  /** The text without its leading white space. */
  function TrimLeft(s: Bytes): Bytes
  {
    if s != [] && TextSpace(s[0]) then TrimLeft(s[1..]) else s
  }

  predicate StartsStructured(s: Bytes) { s != [] && (s[0] == '{' || s[0] == '[' || s[0] == '"') }

  /** Malformed text that looks like JSON is refused; other text is plain text. */
  function ToolInput(raw: Bytes): Option<Rule>
  {
    if |raw| > MAX_BYTES || !Scan(raw, 0, false, false) then Some(InputBounds)
    else if TrimLeft(raw) == [] then None
    else if Parse(raw).Some? then (match Decode(raw) case Ok(_) => None case Err(rule) => Some(rule))
    else if StartsStructured(TrimLeft(raw)) then Some(InvalidEncoding)
    else None
  }

  method ValidateToolJSONInput(raw: Bytes) returns (r: Option<Rule>)
    ensures r == ToolInput(raw)
  {
    hide Decode, Scan, Parse;
    var shallow := BoundedJSONDepth(raw);
    if |raw| > MAX_BYTES || !shallow {
      return Some(InputBounds);
    }
    var trimmed := TrimLeft(raw);
    if trimmed == [] {
      return None;
    }
    if Parse(raw).Some? {
      var decoded := DecodePayloadJSON(raw);
      return if decoded.Ok? then None else Some(decoded.rule);
    }
    if StartsStructured(trimmed) {
      return Some(InvalidEncoding);
    }
    return None;
  }

  // ----- what the input check means

  ghost predicate Blank(s: Bytes) { forall i :: 0 <= i < |s| ==> TextSpace(s[i]) }

  /** The first character behind the white space opens an array, an object or a string. */
  ghost predicate LooksStructured(s: Bytes) {
    exists i :: 0 <= i < |s| && Blank(s[..i]) && (s[i] == '{' || s[i] == '[' || s[i] == '"')
  }

  predicate WithinScan(raw: Bytes) { |raw| <= MAX_BYTES && Scan(raw, 0, false, false) }

  lemma {:induction false} TrimLeftMeaning(s: Bytes)
    ensures TrimLeft(s) == [] <==> Blank(s)
    ensures StartsStructured(TrimLeft(s)) <==> LooksStructured(s)
  {
    if s != [] && TextSpace(s[0]) {
      TrimLeftMeaning(s[1..]);
      BlankHead(s);
      StructuredHead(s);
    } else if s != [] {
      assert s[..0] == [];
      if LooksStructured(s) {
        var i :| 0 <= i < |s| && Blank(s[..i]) && (s[i] == '{' || s[i] == '[' || s[i] == '"');
        BlankFirst(s, i);
      }
    }
  }

  lemma BlankFirst(s: Bytes, i: nat)
    requires i <= |s| && Blank(s[..i])
    ensures i > 0 ==> TextSpace(s[0])
  {
    if i > 0 {
      assert s[..i][0] == s[0];
    }
  }

  lemma BlankHead(s: Bytes)
    requires s != [] && TextSpace(s[0])
    ensures Blank(s) <==> Blank(s[1..])
  {
    hide TextSpace;
    assert s == [s[0]] + s[1..];
  }

  lemma StructuredHead(s: Bytes)
    requires s != [] && TextSpace(s[0])
    ensures LooksStructured(s) <==> LooksStructured(s[1..])
  {
    hide Blank;
    if LooksStructured(s) {
      var i :| 0 <= i < |s| && Blank(s[..i]) && (s[i] == '{' || s[i] == '[' || s[i] == '"');
      assert i > 0;
      assert s[..i][1..] == s[1..][..i - 1];
      BlankHead(s[..i]);
      assert s[1..][i - 1] == s[i];
    }
    if LooksStructured(s[1..]) {
      var i :| 0 <= i < |s[1..]| && Blank(s[1..][..i]) && (s[1..][i] == '{' || s[1..][i] == '[' || s[1..][i] == '"');
      assert s[..i + 1][1..] == s[1..][..i];
      BlankHead(s[..i + 1]);
      assert s[i + 1] == s[1..][i];
    }
  }

  /** White space holds no JSON value. */
  lemma BlankHasNoValue(s: Bytes)
    requires Blank(s)
    ensures Parse(s) == None
  {
    hide ParseValue, NextToken;
    BlankHasNoToken(s);
    if Lex(s).Some? {
      NoTokenNoValue(Lex(s).value);
    }
  }

  lemma {:induction false} BlankHasNoToken(s: Bytes)
    requires Blank(s)
    ensures Lex(s).Some? ==> Lex(s).value == []
  {
    if s != [] {
      BlankHasNoToken(s[1..]);
      if !Space(s[0]) {
        assert NextToken(s) == None by { NoTokenAtSpace(s); }
      }
    }
  }

  lemma NoTokenAtSpace(s: Bytes)
    requires s != [] && TextSpace(s[0])
    ensures NextToken(s) == None
  {
    assert !NumberByte(s[0]);
    assert "true"[0] != s[0] && "false"[0] != s[0] && "null"[0] != s[0];
  }

  lemma NoTokenNoValue(ts: seq<Token>)
    requires ts == []
    ensures ParseValue(Syms(ts)) == None
  {
  }

  /** What each answer of the check says about the text: nothing is wrong exactly with blank
      text, decodable JSON, and text that neither is nor looks like JSON. */
  lemma ToolInputMeaning(raw: Bytes)
    ensures ToolInput(raw) == None <==>
              WithinScan(raw) && (Blank(raw) || Decode(raw).Ok? || (Parse(raw).None? && !LooksStructured(raw)))
    ensures ToolInput(raw) == Some(InputBounds) <==>
              !WithinScan(raw) || (Valid(raw) && Parse(raw).Some? && Nodes(Canon(Parse(raw).value)) > MAX_NODES)
    ensures ToolInput(raw) == Some(InvalidEncoding) <==>
              WithinScan(raw) && !Blank(raw) && if Parse(raw).Some? then !Valid(raw) else LooksStructured(raw)
  {
    hide Blank, LooksStructured, Scan, Parse, Valid, Nodes, Canon, StartsStructured;
    TrimLeftMeaning(raw);
    if Blank(raw) {
      BlankHasNoValue(raw);
    }
  }

  /** On JSON the check is the four bounds, with nesting measured on the value. */
  lemma ToolInputOnJson(raw: Bytes)
    requires Parse(raw).Some?
    ensures var v := Parse(raw).value;
      ToolInput(raw) == None <==>
        |raw| <= MAX_BYTES && Valid(raw) && Depth(v) <= MAX_DEPTH && Nodes(Canon(v)) <= MAX_NODES
  {
    hide Blank, LooksStructured, Scan, Parse, Valid, Nodes, Canon, Depth, ToolInput;
    ToolInputMeaning(raw);
    ScannerDecidesDepth(raw);
    if Blank(raw) {
      BlankHasNoValue(raw);
    }
  }

  /** The value json.Marshal receives: JSON as it is, plain text as a string. */
  function ToolValue(raw: Bytes): Json
  {
    if Parse(raw).Some? then JRaw(raw) else JStr(raw)
  }

  function BoundedTool(raw: Bytes, limit: int): Result<Bytes>
  {
    if raw == [] then Ok("")
    else
      match ToolInput(raw)
      case Some(rule) => Err(rule)
      case None => Bounded(ToolValue(raw), limit)
  }

  method BoundedToolJSON(raw: Bytes, limit: int) returns (r: Result<Bytes>)
    ensures r == BoundedTool(raw, limit)
  {
    hide Parse, Bounded, ToolInput;
    if raw == [] {
      return Ok("");
    }
    var invalid := ValidateToolJSONInput(raw);
    if invalid.Some? {
      return Err(invalid.value);
    }
    if Parse(raw).Some? {
      r := BoundedJSON(JRaw(raw), limit);
    } else {
      r := BoundedJSON(JStr(raw), limit);
    }
  }

  /** The protected tool text. */
  function SanitizeTool(policy: Payload.Policy, raw: Bytes): Bytes { Payload.SanitizeRaw(policy, raw) }

  /** The tool attribute recorded for a text, if any; a rejected text leaves none. */
  function ToolAttribute(cfg: Payload.Config, raw: Bytes): Option<Bytes>
  {
    if !cfg.record || raw == [] || ToolInput(raw).Some? then None
    else
      match BoundedTool(SanitizeTool(cfg.policy, raw), cfg.limit)
      case Err(_) => None
      case Ok(text) => if text == [] then None else Some(text)
  }

  /** validPayloadEvidence for a tool channel: host-owned keys are not interpreted. */
  predicate ValidToolEvidence(contract: Evidence.Contract, text: Bytes)
  {
    |text| <= contract.limit && Valid(text) && Decode(text).Ok?
  }

  /** Whatever the policy and the text, a recorded tool payload is bounded JSON that the
      checker accepts, and stands for the sanitized value or its largest prefix. */
  lemma ToolSatisfiesChecker(cfg: Payload.Config, raw: Bytes)
    requires Evidence.ValidConfig(cfg) && ToolAttribute(cfg, raw).Some?
    ensures var text := ToolAttribute(cfg, raw).value;
      var value := ToolValue(SanitizeTool(cfg.policy, raw));
      && ValidToolEvidence(Evidence.ContractOf(cfg), text)
      && Marshals(value) && Decode(Text(value, true)).Ok?
      && EnvelopesMarshal(Decode(Text(value, true)).value)
      && StandsFor(Text(value, true), cfg.limit, text)
  {
    hide Bounded, Decode, Parse, Text, ToolInput, StandsFor, EnvelopesMarshal, Valid;
    BoundedRepresents(ToolValue(SanitizeTool(cfg.policy, raw)), cfg.limit);
  }
}
