/** Which tokens are accepted as continuation handles (internal/async/handle.go) and as trace snapshots
    (trace_snapshot.go), told by the members of the decoded object. */
module AcceptedHandles {
  import opened Bytes
  import opened JsonTree
  import opened Tokens
  import opened AsyncHandle
  import opened TraceSnapshots
  import Base64
  import Decimals

  /** Every value of a key is of this form or null. */
  ghost predicate Texts(ms: seq<Member>, key: Bytes)
  {
    forall i :: 0 <= i < |ms| && ms[i].key == key ==> ms[i].value.JStr? || ms[i].value.JNull?
  }

  predicate Octet(v: Json)
  {
    v.JNum? && Decimals.Digits(v.lexeme) && Decimals.Number(v.lexeme) < 256
  }

  ghost predicate Octets(ms: seq<Member>, key: Bytes)
  {
    forall i :: 0 <= i < |ms| && ms[i].key == key ==> Octet(ms[i].value) || ms[i].value.JNull?
  }

  ghost predicate Flags(ms: seq<Member>, key: Bytes)
  {
    forall i :: 0 <= i < |ms| && ms[i].key == key ==> ms[i].value.JBool? || ms[i].value.JNull?
  }

  /** The last value of a key that is not null. */
  function LastValue(ms: seq<Member>, key: Bytes): Option<Json>
  {
    if ms == [] then None
    else
      var last := ms[|ms| - 1];
      if last.key == key && !last.value.JNull? then Some(last.value) else LastValue(ms[..|ms| - 1], key)
  }

  function TextAt(ms: seq<Member>, key: Bytes): Bytes
  {
    var v := LastValue(ms, key);
    if v.Some? && v.value.JStr? then v.value.s else ""
  }

  lemma {:induction false} TextsMean(ms: seq<Member>, key: Bytes)
    ensures TextField(ms, key) == if Texts(ms, key) then Some(TextAt(ms, key)) else None
    ensures Texts(ms, key) && LastValue(ms, key).Some? ==> LastValue(ms, key).value.JStr?
  {
    if ms != [] {
      var init := ms[..|ms| - 1];
      TextsMean(init, key);
      assert forall i :: 0 <= i < |init| ==> init[i] == ms[i];
    }
  }

  lemma {:induction false} OctetsMean(ms: seq<Member>, key: Bytes)
    ensures Octets(ms, key) && LastValue(ms, key).Some? ==> Octet(LastValue(ms, key).value)
    ensures ByteField(ms, key) ==
              if !Octets(ms, key) then None
              else if LastValue(ms, key).None? then Some(0)
              else Some(Decimals.Number(LastValue(ms, key).value.lexeme))
  {
    hide Decimals.Digits, Decimals.Number;
    if ms != [] {
      var init := ms[..|ms| - 1];
      OctetsMean(init, key);
      assert forall i :: 0 <= i < |init| ==> init[i] == ms[i];
    }
  }

  lemma {:induction false} FlagsMean(ms: seq<Member>, key: Bytes)
    ensures Flags(ms, key) && LastValue(ms, key).Some? ==> LastValue(ms, key).value.JBool?
    ensures BoolField(ms, key) ==
              if !Flags(ms, key) then None
              else Some(LastValue(ms, key).Some? && LastValue(ms, key).value.b)
  {
    if ms != [] {
      var init := ms[..|ms| - 1];
      FlagsMean(init, key);
      assert forall i :: 0 <= i < |init| ==> init[i] == ms[i];
    }
  }

  /** n lower-case hexadecimal digits, not all of them zero. */
  ghost predicate Hexadecimal(s: Bytes, n: nat)
  {
    |s| == n && (forall c :: c in s ==> c in "0123456789abcdef") && exists c :: c in s && c != '0'
  }

  lemma IdentityMeans(s: Bytes, n: nat)
    ensures Identity(s, n) <==> Hexadecimal(s, n)
  {
    HexDigits();
    if Identity(s, n) {
      var i :| 0 <= i < |s| && s[i] != '0';
      assert s[i] in s;
    }
    if Hexadecimal(s, n) {
      forall i | 0 <= i < |s|
        ensures LowerHex(s[i])
      {
        assert s[i] in s;
      }
      var c :| c in s && c != '0';
      var i :| 0 <= i < |s| && s[i] == c;
    }
  }

  lemma HexDigits()
    ensures forall c: byte :: LowerHex(c) <==> c in "0123456789abcdef"
  {
    var digits := "0123456789abcdef";
    forall c: byte
      ensures LowerHex(c) <==> c in digits
    {
      if '0' <= c <= '9' {
        assert digits[c as int - '0' as int] == c;
      }
      if 'a' <= c <= 'f' {
        assert digits[10 + c as int - 'a' as int] == c;
      }
    }
  }

  /** A token is accepted exactly when it is base64 of a JSON object whose fields have their types,
      with two identities in hexadecimal that are not zero and a short tracestate that is empty or
      legal; the handle holds what the fields say. */
  lemma AcceptedExactly(states: States, token: Bytes, ms: seq<Member>)
    requires token != "" && |token| <= 2048 && Base64.Decode(token).Some?
    requires Parse(Base64.Decode(token).value) == Some(JObj(ms))
    ensures var state := TextAt(ms, "trace_state");
      ParseHandle(states, token).Ok? <==>
        && Texts(ms, "trace_id") && Texts(ms, "span_id") && Texts(ms, "trace_state") && Octets(ms, "trace_flags")
        && Flags(ms, "remote") && Hexadecimal(TextAt(ms, "trace_id"), 32) && Hexadecimal(TextAt(ms, "span_id"), 16)
        && |state| <= 512 && (state == "" || states(state).Some?)
    ensures ParseHandle(states, token).Ok? ==>
              var c := ParseHandle(states, token).value.context;
              && c.traceId == TextAt(ms, "trace_id") && c.spanId == TextAt(ms, "span_id")
              && c.state == (if states(TextAt(ms, "trace_state")).Some? then states(TextAt(ms, "trace_state")).value
                             else "")
              && (c.remote <==> LastValue(ms, "remote") == Some(JBool(true)))
              && var flags := LastValue(ms, "trace_flags");
                 if flags.None? then c.flags == 0
                 else && flags.value.JNum? && Decimals.Digits(flags.value.lexeme)
                      && c.flags == Decimals.Number(flags.value.lexeme)
  {
    hide Parse, Base64.Decode, TextField, ByteField, BoolField, Identity, Texts, Octets, Flags, LastValue, Hexadecimal,
         Decimals.Digits, Decimals.Number, TextAt;
    TextsMean(ms, TRACE_ID);
    TextsMean(ms, SPAN_ID);
    TextsMean(ms, STATE);
    OctetsMean(ms, FLAGS);
    FlagsMean(ms, REMOTE);
    IdentityMeans(TextAt(ms, TRACE_ID), 32);
    IdentityMeans(TextAt(ms, SPAN_ID), 16);
  }

  /** Nothing but an object is accepted, and nothing that is not base64. */
  lemma OnlyObjectsAreAccepted(states: States, token: Bytes)
    requires ParseHandle(states, token).Ok?
    ensures token != "" && |token| <= 2048 && Base64.Decode(token).Some?
    ensures var v := Parse(Base64.Decode(token).value); v.Some? && v.value.JObj?
  {
    hide Parse, Base64.Decode, TextField, ByteField, BoolField, Identity;
  }

  /** A snapshot token is accepted exactly when it is base64 of a JSON object whose two fields are texts:
      a traceparent from which the propagator restores a span, and a short legal tracestate. */
  lemma SnapshotAcceptedExactly(w: W3C, token: Bytes, ms: seq<Member>)
    requires token != "" && |token| <= 2048 && Base64.Decode(token).Some?
    requires Parse(Base64.Decode(token).value) == Some(JObj(ms))
    ensures var parent, state := TextAt(ms, "traceparent"), TextAt(ms, "tracestate");
      && (ParseTraceSnapshot(w, token).Ok? <==>
            && Texts(ms, "traceparent") && Texts(ms, "tracestate") && w.states(state).Some? && |state| <= 512
            && parent != "" && w.restores(parent, state))
      && (ParseTraceSnapshot(w, token).Ok? ==> ParseTraceSnapshot(w, token).value == TraceSnapshot(parent, state))
  {
    hide Parse, Base64.Decode, TextField, Texts, TextAt;
    TextsMean(ms, PARENT);
    TextsMean(ms, SNAPSHOT_STATE);
  }
}
