/** Continuation handles as portable tokens (internal/async/handle.go). */
module AsyncHandle {
  import opened Bytes
  import opened JsonText
  import opened JsonStrings
  import opened JsonTree
  import opened JsonLength
  import opened Tokens
  import Decimals
  import Base64

  /** A trace reference; identities are held in their hexadecimal spelling. */
  datatype SpanContext = SpanContext(traceId: Bytes, spanId: Bytes, flags: nat, state: Bytes, remote: bool)

  datatype Handle = Handle(context: SpanContext, disabled: bool)

  datatype Error = InvalidHandle | TooLarge

  datatype Result<T> = Ok(value: T) | Err(error: Error)

  /** trace.ParseTraceState: the canonical text of a legal tracestate. */
  type States = Bytes -> Option<Bytes>

  const ZERO_CONTEXT: SpanContext := SpanContext("", "", 0, "", false)

  /** The hexadecimal spelling of an identity of n digits that is not zero. */
  predicate Identity(s: Bytes, n: nat)
  {
    |s| == n && (forall i :: 0 <= i < |s| ==> LowerHex(s[i])) && exists i :: 0 <= i < |s| && s[i] != '0'
  }

  predicate ValidContext(c: SpanContext) { Identity(c.traceId, 32) && Identity(c.spanId, 16) }

  predicate IsValid(h: Handle) { !h.disabled && ValidContext(h.context) }

  const TRACE_ID: Bytes := "trace_id"
  const SPAN_ID: Bytes := "span_id"
  const FLAGS: Bytes := "trace_flags"
  const STATE: Bytes := "trace_state"
  const REMOTE: Bytes := "remote"

  function StateMember(c: SpanContext): seq<Member>
  {
    if c.state == "" then [] else [Member(STATE, JStr(c.state))]
  }

  function Fields(c: SpanContext): seq<Member>
  {
    [Member(TRACE_ID, JStr(c.traceId))]
    + ([Member(SPAN_ID, JStr(c.spanId))]
       + ([Member(FLAGS, JNum(Decimals.FormatInt(c.flags)))]
          + (StateMember(c) + [Member(REMOTE, JBool(c.remote))])))
  }

  lemma FlagsNumber(n: nat)
    ensures ValidNumber(Decimals.FormatInt(n)) && Decimals.Digits(Decimals.FormatInt(n))
    ensures Decimals.Number(Decimals.FormatInt(n)) == n
    ensures n < 256 ==> |Decimals.FormatInt(n)| <= 3
  {
    hide ValidNumber;
    Decimals.NumberOfDecimal(n);
    DigitsAreNumber(Decimals.Decimal(n), n);
    if n < 256 {
      ShortDecimal(n);
    }
  }

  lemma ShortDecimal(n: nat)
    requires n < 1000
    ensures |Decimals.Decimal(n)| <= 3
  {
    if n >= 10 {
      assert Decimals.Decimal(n) == Decimals.Decimal(n / 10) + [Decimals.Digit(n % 10)];
      if n >= 100 {
        assert Decimals.Decimal(n / 10) == Decimals.Decimal(n / 100) + [Decimals.Digit(n / 10 % 10)];
      }
    }
  }

  lemma DigitsAreNumber(s: Bytes, n: nat)
    requires Decimals.Digits(s) && (n > 0 ==> s[0] != '0') && (n < 10 ==> |s| == 1)
    ensures ValidNumber(s)
  {
    DigitRun(s);
    assert s[|s|..] == [];
  }

  lemma {:induction false} DigitRun(s: Bytes)
    requires forall i :: 0 <= i < |s| ==> '0' <= s[i] <= '9'
    ensures Digits(s) == |s| && NumberRun(s) == |s|
  {
    if s != [] {
      DigitRun(s[1..]);
    }
  }

  /** What a context needs so that its fields can be written: real contexts have it by type. */
  predicate Writable(c: SpanContext) { c.flags < 256 && Printable(c.state) }

  lemma HexPrintable(s: Bytes, n: nat)
    requires Identity(s, n)
    ensures Printable(s) && PlainText(s)
  {
  }

  /** Field by field: the whole JSON text, and its length. */
  lemma FieldsLength(c: SpanContext)
    requires ValidContext(c) && Writable(c)
    ensures Marshals(JObj(Fields(c))) && Length(JObj(Fields(c)), false) <= 150 + 2 * |c.state|
  {
    hide ValidNumber, Escape, Identity, PlainText, Printable, LengthMembers, MarshalsMembers;
    IdentityLength(c.traceId, 32);
    IdentityLength(c.spanId, 16);
    FlagsNumber(c.flags);
    EscapePrintableLength(c.state);
    KeysPlain();
    NoMore();
    var e := [Member(REMOTE, JBool(c.remote))];
    OneMore(Member(REMOTE, JBool(c.remote)), []);
    AddEmpty(e);
    var d := StateMember(c) + e;
    if c.state != "" {
      OneMoreText(STATE, c.state, e);
    }
    OneMore(Member(FLAGS, JNum(Decimals.FormatInt(c.flags))), d);
    var f := [Member(FLAGS, JNum(Decimals.FormatInt(c.flags)))] + d;
    OneMoreText(SPAN_ID, c.spanId, f);
    OneMoreText(TRACE_ID, c.traceId, [Member(SPAN_ID, JStr(c.spanId))] + f);
  }

  lemma IdentityLength(s: Bytes, n: nat)
    requires Identity(s, n)
    ensures |s| == n && Escape(s, false) == s
  {
    hide Escape;
    HexPrintable(s, n);
    EscapePlain(s, false);
  }

  lemma KeysPlain()
    ensures PlainText(TRACE_ID) && PlainText(SPAN_ID) && PlainText(FLAGS) && PlainText(STATE) && PlainText(REMOTE)
  {
  }

  // ----- marshalling

  function Marshal(h: Handle): Result<Bytes>
    requires IsValid(h) ==> Writable(h.context)
  {
    if !IsValid(h) then Err(InvalidHandle)
    else if |h.context.state| > MAX_STATE then Err(TooLarge)
    else
      FieldsLength(h.context);
      var token := TokenOf(JObj(Fields(h.context)));
      if |token| > MAX_TOKEN then Err(TooLarge) else Ok(token)
  }

  /** The handle of the fields of a decoded object. */
  function HandleOf(states: States, ms: seq<Member>): Result<Handle>
  {
    match (TextField(ms, TRACE_ID), TextField(ms, SPAN_ID), ByteField(ms, FLAGS), TextField(ms, STATE),
           BoolField(ms, REMOTE))
    case (Some(traceId), Some(spanId), Some(flags), Some(state), Some(remote)) =>
      if |state| > MAX_STATE then Err(TooLarge)
      else if !Identity(traceId, 32) || !Identity(spanId, 16) then Err(InvalidHandle)
      else
        (match states(state)
         case None =>
           if state != "" then Err(InvalidHandle)
           else Ok(Handle(SpanContext(traceId, spanId, flags, "", remote), false))
         case Some(canonical) => Ok(Handle(SpanContext(traceId, spanId, flags, canonical, remote), false)))
    case _ => Err(InvalidHandle)
  }

  function ParseHandle(states: States, token: Bytes): Result<Handle>
  {
    if token == "" then Err(InvalidHandle)
    else if |token| > MAX_TOKEN then Err(TooLarge)
    else
      match Base64.Decode(token)
      case None => Err(InvalidHandle)
      case Some(raw) =>
        match Parse(raw)
        case Some(JObj(ms)) => HandleOf(states, ms)
        case _ => Err(InvalidHandle)
  }

  /** Only references to real spans are ever accepted, whatever the token. */
  lemma ParsedIsValid(states: States, token: Bytes)
    requires ParseHandle(states, token).Ok?
    ensures IsValid(ParseHandle(states, token).value)
    ensures ParseHandle(states, token).value.context.flags < 256
    ensures ParseHandle(states, token).value.context.state == "" ||
              exists s :: |s| <= MAX_STATE && states(s) == Some(ParseHandle(states, token).value.context.state)
  {
    hide Parse, Base64.Decode, TextField, ByteField, BoolField, Identity;
    var ms := Parse(Base64.Decode(token).value).value.members;
    assert states(TextField(ms, STATE).value) == states(TextField(ms, STATE).value);
  }

  /** The late size check of Marshal never fires: every valid handle with a tracestate within
      the W3C budget has a token, and only its identity and tracestate decide. */
  lemma ValidHandlesFit(h: Handle)
    requires IsValid(h) ==> Writable(h.context)
    ensures Marshal(h).Ok? <==> IsValid(h) && |h.context.state| <= MAX_STATE
    ensures Marshal(h).Ok? ==> 0 < |Marshal(h).value| <= MAX_TOKEN
  {
    hide Length, Fields, TokenOf, Identity, Writable;
    if IsValid(h) && |h.context.state| <= MAX_STATE {
      var c := h.context;
      FieldsLength(c);
      TokenFits(JObj(Fields(c)), 150 + 2 * |c.state|);
      TokenNotEmpty(JObj(Fields(c)));
    }
  }

  lemma TokenNotEmpty(v: Json)
    requires Marshals(v) && v.JObj?
    ensures TokenOf(v) != ""
  {
    hide Text, Base64.Encode, LengthMembers;
    TextOctets(v);
    LengthIsTextLength(v, false);
    Base64.EncodedLength(Text(v, false));
  }

  /** Reading the written fields. */
  lemma FieldsRead(c: SpanContext)
    requires ValidContext(c) && Writable(c)
    ensures Marshals(JObj(Fields(c))) && Resolve(JObj(Fields(c))) == JObj(Fields(c))
  {
    hide ValidNumber, Identity, Printable, PlainText, Clean, MarshalsMembers, ResolveMembers;
    HexPrintable(c.traceId, 32);
    HexPrintable(c.spanId, 16);
    PrintableClean(c.traceId);
    PrintableClean(c.spanId);
    PrintableClean(c.state);
    FlagsNumber(c.flags);
    KeysPlain();
    NoMore();
    var e := [Member(REMOTE, JBool(c.remote))];
    ResolveMore(Member(REMOTE, JBool(c.remote)), []);
    AddEmpty(e);
    var d := StateMember(c) + e;
    if c.state != "" {
      ResolveMore(Member(STATE, JStr(c.state)), e);
    }
    var f := [Member(FLAGS, JNum(Decimals.FormatInt(c.flags)))] + d;
    ResolveMore(Member(FLAGS, JNum(Decimals.FormatInt(c.flags))), d);
    ResolveMore(Member(SPAN_ID, JStr(c.spanId)), f);
    ResolveMore(Member(TRACE_ID, JStr(c.traceId)), [Member(SPAN_ID, JStr(c.spanId))] + f);
  }

  lemma FieldsGive(c: SpanContext)
    requires c.flags < 256
    ensures TextField(Fields(c), TRACE_ID) == Some(c.traceId) && TextField(Fields(c), SPAN_ID) == Some(c.spanId)
    ensures TextField(Fields(c), STATE) == Some(c.state) && BoolField(Fields(c), REMOTE) == Some(c.remote)
    ensures ByteField(Fields(c), FLAGS) == Some(c.flags)
  {
    hide TextField, ByteField, BoolField, ValidNumber, Decimals.Number, Decimals.Digits;
    FlagsNumber(c.flags);
    var a, b := Member(TRACE_ID, JStr(c.traceId)), Member(SPAN_ID, JStr(c.spanId));
    var f, r := Member(FLAGS, JNum(Decimals.FormatInt(c.flags))), Member(REMOTE, JBool(c.remote));
    NoFields(TRACE_ID);
    NoFields(SPAN_ID);
    NoFields(STATE);
    NoFields(FLAGS);
    NoFields(REMOTE);
    Extend([], a);
    Extend([a], b);
    Extend([a] + [b], f);
    var all := [a] + [b] + [f];
    if c.state != "" {
      Extend(all, Member(STATE, JStr(c.state)));
      all := all + [Member(STATE, JStr(c.state))];
    }
    Extend(all, r);
    assert Fields(c) == all + [r];
    assert [] + [a] == [a];
  }

  lemma NoFields(key: Bytes)
    ensures TextField([], key) == Some("") && ByteField([], key) == Some(0) && BoolField([], key) == Some(false)
  {
  }

  /** One member more, seen by every field. */
  lemma Extend(ms: seq<Member>, m: Member)
    ensures forall key :: TextField(ms, key).Some? && m.key != key ==> TextField(ms + [m], key) == TextField(ms, key)
    ensures forall key :: ByteField(ms, key).Some? && m.key != key ==> ByteField(ms + [m], key) == ByteField(ms, key)
    ensures forall key :: BoolField(ms, key).Some? && m.key != key ==> BoolField(ms + [m], key) == BoolField(ms, key)
    ensures TextField(ms, m.key).Some? && m.value.JStr? ==> TextField(ms + [m], m.key) == Some(m.value.s)
    ensures BoolField(ms, m.key).Some? && m.value.JBool? ==> BoolField(ms + [m], m.key) == Some(m.value.b)
    ensures ByteField(ms, m.key).Some? && m.value.JNum? && Decimals.Digits(m.value.lexeme)
            && Decimals.Number(m.value.lexeme) < 256 ==>
              ByteField(ms + [m], m.key) == Some(Decimals.Number(m.value.lexeme))
  {
    assert (ms + [m])[..|ms|] == ms;
  }

  /** Continuation tokens round-trip: a valid handle with a legal tracestate within the budget is
      parsed back from its token unchanged. */
  lemma HandlesRoundTrip(states: States, h: Handle)
    requires IsValid(h) && Writable(h.context) && |h.context.state| <= MAX_STATE
    requires h.context.state == "" ==> states("") in {None, Some("")}
    requires h.context.state != "" ==> states(h.context.state) == Some(h.context.state)
    ensures Marshal(h).Ok? && ParseHandle(states, Marshal(h).value) == Ok(h)
  {
    hide Fields, TokenOf, Parse, Base64.Decode, Resolve, TextField, ByteField, BoolField, Identity, Writable;
    ValidHandlesFit(h);
    FieldsRead(h.context);
    TokenReads(JObj(Fields(h.context)));
    FlagsBound(h.context);
    FieldsGive(h.context);
  }

  /** The canonical text of a tracestate is printable, no longer, and canonical itself. */
  ghost predicate Canonicalizes(states: States)
  {
    forall s :: states(s).Some? ==>
      Printable(states(s).value) && |states(s).value| <= |s| && states(states(s).value) == states(s)
  }

  /** Whatever token was accepted, its handle is a reference to a real span that can be marshalled
      again, and the new token gives back the same handle. */
  lemma ParsedHandlesTravel(states: States, token: Bytes)
    requires Canonicalizes(states) && ParseHandle(states, token).Ok?
    ensures var h := ParseHandle(states, token).value;
      IsValid(h) && Writable(h.context) && Marshal(h).Ok? && ParseHandle(states, Marshal(h).value) == Ok(h)
  {
    hide Parse, Base64.Decode, TextField, ByteField, BoolField, Identity, Printable;
    ParsedIsValid(states, token);
    var h := ParseHandle(states, token).value;
    NothingPrintable();
    HandlesRoundTrip(states, h);
  }

  lemma NothingPrintable()
    ensures Printable("")
  {
  }

  lemma FlagsBound(c: SpanContext)
    requires Writable(c)
    ensures c.flags < 256
  {
  }
}
