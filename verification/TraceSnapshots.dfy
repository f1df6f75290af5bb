/** Durable trace snapshots (trace_snapshot.go). */
module TraceSnapshots {
  import opened Bytes
  import opened Utf8
  import opened JsonText
  import opened JsonStrings
  import opened JsonTree
  import opened JsonLength
  import opened Tokens
  import opened AsyncHandle
  import Base64
  import JsonDecode

  datatype TraceSnapshot = TraceSnapshot(traceParent: Bytes, traceState: Bytes)

  /** The W3C trace-context propagator: legal tracestates, and the pairs it restores a valid span from. */
  datatype W3C = W3C(states: States, restores: (Bytes, Bytes) -> bool)

  predicate SnapshotValid(w: W3C, s: TraceSnapshot)
  {
    s.traceParent != "" && w.restores(s.traceParent, s.traceState)
  }

  function NewTraceSnapshot(w: W3C, parent: Bytes, state: Bytes): Result<TraceSnapshot>
  {
    if w.states(state) == None then Err(InvalidHandle)
    else if |state| > MAX_STATE then Err(TooLarge)
    else if !SnapshotValid(w, TraceSnapshot(parent, state)) then Err(InvalidHandle)
    else Ok(TraceSnapshot(parent, state))
  }

  const PARENT: Bytes := "traceparent"
  const SNAPSHOT_STATE: Bytes := "tracestate"
  const PARENT_LENGTH: int := 55

  predicate ParentByte(c: byte) { LowerHex(c) || c == '-' }

  /** What TraceContext injects: a version-00 traceparent, a printable tracestate. */
  predicate Captured(s: TraceSnapshot)
  {
    && |s.traceParent| == PARENT_LENGTH && (forall i :: 0 <= i < PARENT_LENGTH ==> ParentByte(s.traceParent[i]))
    && Printable(s.traceState)
  }

  function SnapshotFields(s: TraceSnapshot): seq<Member>
  {
    [Member(PARENT, JStr(s.traceParent))] + if s.traceState == "" then []
      else [Member(SNAPSHOT_STATE, JStr(s.traceState))]
  }

  lemma SnapshotKeys()
    ensures PlainText(PARENT) && PlainText(SNAPSHOT_STATE)
  {
  }

  lemma SnapshotMarshals(s: TraceSnapshot)
    ensures Marshals(JObj(SnapshotFields(s)))
  {
    hide PlainText, MarshalsMembers;
    SnapshotKeys();
    NoMore();
    AddEmpty([Member(PARENT, JStr(s.traceParent))]);
    if s.traceState == "" {
      OneMoreText(PARENT, s.traceParent, []);
    } else {
      AddEmpty([Member(SNAPSHOT_STATE, JStr(s.traceState))]);
      OneMoreText(SNAPSHOT_STATE, s.traceState, []);
      OneMoreText(PARENT, s.traceParent, [Member(SNAPSHOT_STATE, JStr(s.traceState))]);
    }
  }

  function MarshalSnapshot(w: W3C, s: TraceSnapshot): Result<Bytes>
  {
    if !SnapshotValid(w, s) then Err(InvalidHandle)
    else
      SnapshotMarshals(s);
      var token := TokenOf(JObj(SnapshotFields(s)));
      if |token| > MAX_TOKEN then Err(TooLarge) else Ok(token)
  }

  function ParseTraceSnapshot(w: W3C, token: Bytes): Result<TraceSnapshot>
  {
    if token == "" then Err(InvalidHandle)
    else if |token| > MAX_TOKEN then Err(TooLarge)
    else
      match Base64.Decode(token)
      case None => Err(InvalidHandle)
      case Some(raw) =>
        match Parse(raw)
        case Some(JObj(ms)) =>
          (match (TextField(ms, PARENT), TextField(ms, SNAPSHOT_STATE))
           case (Some(parent), Some(state)) => NewTraceSnapshot(w, parent, state)
           case _ => Err(InvalidHandle))
        case Some(JNull) => NewTraceSnapshot(w, "", "")
        case _ => Err(InvalidHandle)
  }

  lemma ParentPlain(s: TraceSnapshot)
    requires Captured(s)
    ensures PlainText(s.traceParent) && Printable(s.traceParent) && |s.traceParent| == PARENT_LENGTH
  {
  }

  lemma SnapshotLength(s: TraceSnapshot)
    requires Captured(s)
    ensures Marshals(JObj(SnapshotFields(s))) && Length(JObj(SnapshotFields(s)), false) <= 150 + 2 * |s.traceState|
    ensures Resolve(JObj(SnapshotFields(s))) == JObj(SnapshotFields(s))
  {
    hide PlainText, Printable, LengthMembers, MarshalsMembers, ResolveMembers, Escape, Clean, Captured;
    ParentPlain(s);
    SnapshotKeys();
    EscapePlain(s.traceParent, false);
    StatePrintable(s);
    EscapePrintableLength(s.traceState);
    PrintableClean(s.traceParent);
    PrintableClean(s.traceState);
    NoMore();
    var e: seq<Member> := [];
    if s.traceState != "" {
      e := [Member(SNAPSHOT_STATE, JStr(s.traceState))];
      AddEmpty(e);
      OneMoreText(SNAPSHOT_STATE, s.traceState, []);
      ResolveMore(Member(SNAPSHOT_STATE, JStr(s.traceState)), []);
    }
    OneMoreText(PARENT, s.traceParent, e);
    ResolveMore(Member(PARENT, JStr(s.traceParent)), e);
  }

  lemma StatePrintable(s: TraceSnapshot)
    requires Captured(s)
    ensures Printable(s.traceState)
  {
  }

  lemma SnapshotGives(s: TraceSnapshot)
    ensures TextField(SnapshotFields(s), PARENT) == Some(s.traceParent)
    ensures TextField(SnapshotFields(s), SNAPSHOT_STATE) == Some(s.traceState)
  {
    hide TextField;
    NoFields(PARENT);
    NoFields(SNAPSHOT_STATE);
    var a := Member(PARENT, JStr(s.traceParent));
    Extend([], a);
    assert [] + [a] == [a];
    AddEmpty([a]);
    if s.traceState != "" {
      Extend([a], Member(SNAPSHOT_STATE, JStr(s.traceState)));
    }
  }

  /** A captured snapshot always has a token within the limit, and the token gives it back. */
  lemma SnapshotsRoundTrip(w: W3C, parent: Bytes, state: Bytes)
    requires NewTraceSnapshot(w, parent, state).Ok? && Captured(TraceSnapshot(parent, state))
    ensures var s := TraceSnapshot(parent, state);
      MarshalSnapshot(w, s).Ok? && ParseTraceSnapshot(w, MarshalSnapshot(w, s).value) == Ok(s)
  {
    hide SnapshotFields, TokenOf, Parse, Base64.Decode, Resolve, TextField, Captured, Length;
    var s := TraceSnapshot(parent, state);
    SnapshotLength(s);
    TokenFits(JObj(SnapshotFields(s)), 150 + 2 * |state|);
    TokenNotEmpty(JObj(SnapshotFields(s)));
    TokenReads(JObj(SnapshotFields(s)));
    SnapshotGives(s);
  }

  // ----- snapshots that came in a token

  /** Bytes of the JSON text inside the token of a snapshot. */
  function SnapshotBytes(s: TraceSnapshot): nat
  {
    |PARENT| + |Escape(s.traceParent, false)| + 7
    + if s.traceState == "" then 0 else |SNAPSHOT_STATE| + |Escape(s.traceState, false)| + 6
  }

  /** The largest text whose token is within the limit. */
  const MAX_TEXT: int := 1536

  lemma SnapshotTextLength(s: TraceSnapshot)
    ensures Marshals(JObj(SnapshotFields(s))) && Length(JObj(SnapshotFields(s)), false) == SnapshotBytes(s)
  {
    hide PlainText, LengthMembers, MarshalsMembers, Escape;
    SnapshotKeys();
    NoMore();
    var e: seq<Member> := [];
    if s.traceState != "" {
      e := [Member(SNAPSHOT_STATE, JStr(s.traceState))];
      AddEmpty(e);
      OneMoreText(SNAPSHOT_STATE, s.traceState, []);
    }
    OneMoreText(PARENT, s.traceParent, e);
  }

  lemma TokenFitsExactly(v: Json)
    requires Marshals(v)
    ensures |TokenOf(v)| <= MAX_TOKEN <==> Length(v, false) <= MAX_TEXT
  {
    hide Text, Base64.Encode, Length;
    TextOctets(v);
    Base64.EncodedLength(Text(v, false));
    LengthIsTextLength(v, false);
  }

  /** Text that was read is well formed, so writing and reading it again changes nothing. */
  lemma {:induction false} TextFieldValid(ms: seq<Member>, key: Bytes)
    requires forall i :: 0 <= i < |ms| ==> JsonDecode.WellFormed(ms[i].value)
    ensures TextField(ms, key).Some? ==> Valid(TextField(ms, key).value)
  {
    hide Valid, JsonDecode.WellFormed;
    if ms == [] {
      NothingValid();
    } else {
      TextFieldValid(ms[..|ms| - 1], key);
      StringValid(ms[|ms| - 1].value);
    }
  }

  lemma NothingValid()
    ensures Valid("")
  {
  }

  lemma StringValid(v: Json)
    requires JsonDecode.WellFormed(v)
    ensures v.JStr? ==> Valid(v.s)
  {
  }

  lemma {:induction false} MembersWellFormed(ms: seq<Member>)
    requires JsonDecode.WellFormedMembers(ms)
    ensures forall i :: 0 <= i < |ms| ==> JsonDecode.WellFormed(ms[i].value)
  {
    hide JsonDecode.WellFormed, Valid;
    if ms != [] {
      MembersWellFormed(ms[1..]);
      assert forall i :: 0 < i < |ms| ==> ms[i] == ms[1..][i - 1];
    }
  }

  lemma ParsedSnapshotValid(w: W3C, token: Bytes)
    requires ParseTraceSnapshot(w, token).Ok?
    ensures var s := ParseTraceSnapshot(w, token).value;
      && Valid(s.traceParent) && Valid(s.traceState)
      && NewTraceSnapshot(w, s.traceParent, s.traceState) == Ok(s)
  {
    hide Parse, Base64.Decode, TextField, Valid, JsonDecode.WellFormed;
    var raw := Base64.Decode(token).value;
    JsonDecode.ParseWellFormed(raw);
    var v := Parse(raw).value;
    if v.JObj? {
      ObjectMembers(v);
      TextFieldValid(v.members, PARENT);
      TextFieldValid(v.members, SNAPSHOT_STATE);
    }
  }

  lemma ObjectMembers(v: Json)
    requires v.JObj? && JsonDecode.WellFormed(v)
    ensures forall i :: 0 <= i < |v.members| ==> JsonDecode.WellFormed(v.members[i].value)
  {
    MembersWellFormed(v.members);
  }

  lemma SnapshotResolves(s: TraceSnapshot)
    requires Valid(s.traceParent) && Valid(s.traceState)
    ensures Marshals(JObj(SnapshotFields(s))) && Resolve(JObj(SnapshotFields(s))) == JObj(SnapshotFields(s))
  {
    hide PlainText, MarshalsMembers, ResolveMembers, Clean, Valid;
    SnapshotMarshals(s);
    SnapshotKeys();
    CleanValid(s.traceParent);
    CleanValid(s.traceState);
    NoMore();
    var e: seq<Member> := [];
    if s.traceState != "" {
      e := [Member(SNAPSHOT_STATE, JStr(s.traceState))];
      AddEmpty(e);
      ResolveMore(Member(SNAPSHOT_STATE, JStr(s.traceState)), []);
    }
    ResolveMore(Member(PARENT, JStr(s.traceParent)), e);
  }

  /** Every accepted snapshot restores a valid span and keeps the W3C budget. It can be marshalled
      again exactly when its escaped fields fit the token, as those of the injected form always do,
      and the new token gives it back. */
  lemma ParsedSnapshotsTravel(w: W3C, token: Bytes)
    requires ParseTraceSnapshot(w, token).Ok?
    ensures var s := ParseTraceSnapshot(w, token).value;
      && SnapshotValid(w, s) && |s.traceState| <= MAX_STATE && w.states(s.traceState).Some?
      && (MarshalSnapshot(w, s).Ok? <==> SnapshotBytes(s) <= MAX_TEXT)
      && (MarshalSnapshot(w, s).Ok? ==> ParseTraceSnapshot(w, MarshalSnapshot(w, s).value) == Ok(s))
      && (Captured(s) ==> SnapshotBytes(s) <= MAX_TEXT)
  {
    hide Parse, Base64.Decode, TextField, Captured, TokenOf, SnapshotFields, Length, Resolve, SnapshotBytes, Valid;
    ParsedSnapshotValid(w, token);
    var s := ParseTraceSnapshot(w, token).value;
    var v := JObj(SnapshotFields(s));
    SnapshotTextLength(s);
    TokenFitsExactly(v);
    SnapshotResolves(s);
    TokenNotEmpty(v);
    TokenReads(v);
    SnapshotGives(s);
    if Captured(s) {
      SnapshotLength(s);
    }
  }

  // ----- an accepted snapshot that has no token of its own

  /** U+2028: three bytes as they are, six when written. */
  const SEPARATOR: Bytes := [0xE2 as char, 0x80 as char, 0xA8 as char]

  function Separators(n: nat): (r: Bytes)
    ensures |r| == 3 * n
  {
    if n == 0 then [] else SEPARATOR + Separators(n - 1)
  }

  lemma SeparatorStep(rest: Bytes)
    ensures var s := SEPARATOR + rest;
      Width(s) == 3 && LineSeparator(s) && s[..3] == SEPARATOR && s[3..] == rest && BodyStep(s) == Piece(3, SEPARATOR)
  {
    var s := SEPARATOR + rest;
    DropTake(SEPARATOR, rest);
    assert s[0] == SEPARATOR[0] && s[1] == SEPARATOR[1] && s[2] == SEPARATOR[2];
    assert Width(s) == 3;
  }

  lemma {:induction false} SeparatorsMeasure(n: nat)
    ensures |Escape(Separators(n), false)| == 6 * n && Valid(Separators(n))
    ensures LexBody(Separators(n) + "\"") == Some(Body(3 * n, Separators(n)))
  {
    hide Width, LineSeparator, BodyStep, LexBody, EscapeChunk, Escape;
    if n == 0 {
      AddEmpty("\"");
      LexBodyUnfold("\"");
      QuoteEnds();
      NothingEscaped();
    } else {
      var rest := Separators(n - 1);
      SeparatorsMeasure(n - 1);
      SeparatorStep(rest);
      SeparatorStep(rest + "\"");
      Assoc(SEPARATOR, rest, "\"");
      LexBodyFrom(SEPARATOR, rest + "\"", SEPARATOR);
      SeparatorEscaped(rest);
    }
  }

  lemma NothingEscaped()
    ensures Escape([], false) == [] && Valid([])
  {
  }

  lemma SeparatorEscaped(rest: Bytes)
    requires Valid(rest)
    ensures |Escape(SEPARATOR + rest, false)| == 6 + |Escape(rest, false)| && Valid(SEPARATOR + rest)
  {
    hide LineSeparator, BodyStep, Escape;
    var s := SEPARATOR + rest;
    SeparatorStep(rest);
    EscapeUnfold(s, false);
  }

  /** Plain text before other text is read and written as it is. */
  lemma {:induction false} PlainBefore(p: Bytes, rest: Bytes)
    requires PlainText(p) && Valid(rest) && LexBody(rest + "\"") == Some(Body(|rest|, rest))
    ensures LexBody(p + rest + "\"") == Some(Body(|p| + |rest|, p + rest)) && Valid(p + rest)
    ensures |Escape(p + rest, false)| == |p| + |Escape(rest, false)|
  {
    hide LexBody, Escape, Valid;
    if p == [] {
      AddEmpty(rest);
    } else {
      PlainBefore(p[1..], rest);
      PlainHead(p[0], p[1..] + rest);
      assert p + rest == [p[0]] + (p[1..] + rest);
    }
  }

  lemma PlainHead(c: byte, rest: Bytes)
    requires PlainText([c]) && Valid(rest) && LexBody(rest + "\"") == Some(Body(|rest|, rest))
    ensures LexBody([c] + rest + "\"") == Some(Body(1 + |rest|, [c] + rest)) && Valid([c] + rest)
    ensures |Escape([c] + rest, false)| == 1 + |Escape(rest, false)|
  {
    hide LexBody, Escape;
    var s := [c] + rest;
    PlainByte(c, rest);
    PlainByte(c, rest + "\"");
    DropTake([c], rest);
    Assoc([c], rest, "\"");
    LexBodyFrom([c], rest + "\"", [c]);
    EscapeUnfold(s, false);
  }

  lemma PlainByte(c: byte, rest: Bytes)
    requires PlainText([c])
    ensures var s := [c] + rest;
      Width(s) == 1 && s[0] == c && BodyStep(s) == Piece(1, [c]) && Stride(s) == 1 && EscapeChunk(s, false) == [c]
  {
    var s := [c] + rest;
    assert ' ' <= [c][0] <= '~' && [c][0] != '"' && [c][0] != '\\';
    assert s[0] == c && s[..1] == [c];
  }

  /** The head of a traceparent of a later version, behind which anything may follow. */
  function LaterParent(): Bytes { "01-" + Repeat('1', 32) + "-" + Repeat('2', 16) + "-01-" }

  function LongParent(): Bytes { LaterParent() + Separators(400) }

  /** The text of a token that holds one traceparent as it is. */
  function RawText(parent: Bytes): Bytes { "{" + Quoted(PARENT) + ":" + Quoted(parent) + "}" }

  function RawTokens(parent: Bytes): seq<Token>
  {
    [Token(LBrace, "{"), StringOf(PARENT, false), Token(Colon, ":"), Token(Str(parent), Quoted(parent)),
      Token(RBrace, "}")]
  }

  lemma RawTokensRender(parent: Bytes)
    ensures Render(RawTokens(parent)) == RawText(parent)
  {
    hide Escape, Clean, Quoted, PlainText, Render;
    SnapshotKeys();
    EscapePlain(PARENT, false);
    RenderFive("{", Quoted(PARENT), ":", Quoted(parent), "}", RawTokens(parent));
  }

  lemma RenderFive(a: Bytes, b: Bytes, c: Bytes, d: Bytes, e: Bytes, ts: seq<Token>)
    requires |ts| == 5 && ts[0].spelling == a && ts[1].spelling == b && ts[2].spelling == c
    requires ts[3].spelling == d && ts[4].spelling == e
    ensures Render(ts) == a + b + c + d + e
  {
    hide Render;
    RenderHead(ts, 0);
    RenderHead(ts, 1);
    RenderHead(ts, 2);
    RenderHead(ts, 3);
    RenderHead(ts, 4);
    assert ts[0..] == ts && ts[5..] == [];
    RenderNothing();
  }

  lemma RenderHead(ts: seq<Token>, i: nat)
    requires i < |ts|
    ensures Render(ts[i..]) == ts[i].spelling + Render(ts[i + 1..])
  {
    assert ts[i..][1..] == ts[i + 1..];
  }

  lemma RenderNothing()
    ensures Render([]) == []
  {
  }

  lemma RawTokensGood(parent: Bytes)
    requires LexBody(parent + "\"") == Some(Body(|parent|, parent))
    ensures WfTokens(RawTokens(parent)) && Separated(RawTokens(parent))
  {
    hide WfToken, LexBody, GoodTokens, WfTokens, Separated, StringOf, Quoted;
    ObjectMarks();
    StringOfWf(PARENT, false);
    QuotedWf(parent);
    FiveTokens(RawTokens(parent));
  }

  lemma ObjectMarks()
    ensures WfToken(Token(LBrace, "{")) && WfToken(Token(Colon, ":")) && WfToken(Token(RBrace, "}"))
  {
    hide WfToken, GoodTokens;
    GoodPunctuation();
    GoodToken(Token(LBrace, "{"));
    GoodToken(Token(RBrace, "}"));
    GoodToken(Token(Colon, ":"));
  }

  lemma QuotedWf(parent: Bytes)
    requires LexBody(parent + "\"") == Some(Body(|parent|, parent))
    ensures WfToken(Token(Str(parent), Quoted(parent)))
  {
    hide WfToken, LexBody;
    QuotedToken(parent + "\"", parent);
    Assoc("\"", parent, "\"");
  }

  lemma FiveTokens(ts: seq<Token>)
    requires |ts| == 5 && WfToken(ts[0]) && WfToken(ts[1]) && WfToken(ts[2]) && WfToken(ts[3]) && WfToken(ts[4])
    requires !ts[0].sym.Number? && !ts[2].sym.Number? && !ts[4].sym.Number?
    ensures WfTokens(ts) && Separated(ts)
  {
    hide WfToken;
  }

  lemma GoodToken(tok: Token)
    requires GoodTokens([tok])
    ensures WfToken(tok)
  {
    assert [tok][0] == tok;
  }

  lemma RawTextParses(parent: Bytes)
    requires LexBody(parent + "\"") == Some(Body(|parent|, parent))
    ensures Parse(RawText(parent)) == Some(JObj([Member(PARENT, JStr(parent))]))
  {
    hide WfTokens, Separated, Lex, Render, LexBody, StringOf;
    var v := JObj([Member(PARENT, JStr(parent))]);
    RawTokensRender(parent);
    RawTokensGood(parent);
    LexRender(RawTokens(parent));
    RawSyms(parent);
    ParseOfSyms(v, []);
    AddEmpty(SymsOf(v));
  }

  lemma RawSyms(parent: Bytes)
    ensures var v := JObj([Member(PARENT, JStr(parent))]);
      NoRaw(v) && Syms(RawTokens(parent)) == SymsOf(v)
  {
    hide Clean, Escape;
    SnapshotKeys();
    PlainClean(PARENT);
    var ms := [Member(PARENT, JStr(parent))];
    assert ms[1..] == [];
    assert SymsOfMembers(ms) == [Str(PARENT), Colon] + [Str(parent)] + [RBrace];
  }

  lemma LongParentMeasures()
    ensures LexBody(LongParent() + "\"") == Some(Body(|LongParent()|, LongParent())) && Valid(LongParent())
    ensures |LongParent()| == 1256 && |Escape(LongParent(), false)| == 2456
  {
    hide LexBody, Escape, Valid, PlainText, Separators, LaterParent;
    LaterParentPlain();
    SeparatorsMeasure(400);
    PlainBefore(LaterParent(), Separators(400));
  }

  lemma LaterParentPlain()
    ensures PlainText(LaterParent()) && |LaterParent()| == 56
  {
    hide Repeat;
  }

  /** A token within the limit whose snapshot, accepted by a propagator that restores traceparents
      of later versions, has no token within the limit: writing spells its separators out. */
  lemma AcceptedSnapshotCanOutgrow(w: W3C)
    requires w.states("").Some? && w.restores(LongParent(), "")
    ensures Base64.Octets(RawText(LongParent()))
    ensures var s := TraceSnapshot(LongParent(), "");
      && ParseTraceSnapshot(w, Base64.Encode(RawText(LongParent()))) == Ok(s)
      && MarshalSnapshot(w, s) == Err(TooLarge)
  {
    hide LexBody, Escape, Valid, LongParent, Parse, Base64.Encode, Base64.Decode, TokenOf, SnapshotFields, Length,
         RawText, SnapshotBytes;
    var parent := LongParent();
    var s := TraceSnapshot(parent, "");
    LongParentMeasures();
    RawTextParses(parent);
    RawOctets(parent);
    Base64.EncodedLength(RawText(parent));
    Base64.DecodeEncode(RawText(parent));
    TextFieldOf(parent);
    SnapshotTextLength(s);
    OnlyParentBytes(s);
    TokenFitsExactly(JObj(SnapshotFields(s)));
  }

  lemma RawOctets(parent: Bytes)
    requires Valid(parent)
    ensures Base64.Octets(RawText(parent)) && |RawText(parent)| == |parent| + 18
  {
    hide Valid;
    Base64.ValidOctets(parent);
  }

  lemma TextFieldOf(parent: Bytes)
    ensures TextField([Member(PARENT, JStr(parent))], PARENT) == Some(parent)
    ensures TextField([Member(PARENT, JStr(parent))], SNAPSHOT_STATE) == Some("")
  {
    var ms := [Member(PARENT, JStr(parent))];
    assert ms[..0] == [];
    assert |PARENT| == 11 && |SNAPSHOT_STATE| == 10;
  }

  lemma OnlyParentBytes(s: TraceSnapshot)
    requires s.traceState == ""
    ensures SnapshotBytes(s) == 18 + |Escape(s.traceParent, false)|
  {
    hide Escape;
  }
}
