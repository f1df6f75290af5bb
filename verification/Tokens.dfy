/** Trace-only JSON in base64 tokens (internal/traceutil/token.go), and its fields when read back. */
module Tokens {
  import opened Bytes
  import opened Utf8
  import opened JsonStrings
  import opened JsonTree
  import opened JsonLength
  import Decimals
  import Base64

  const MAX_TOKEN: int := 2048
  const MAX_STATE: int := 512

  /** MarshalToken and its encoding: JSON without HTML escaping, in base64. */
  function TokenOf(v: Json): Bytes
    requires Marshals(v)
  {
    TextOctets(v);
    Base64.Encode(Text(v, false))
  }

  lemma TextOctets(v: Json)
    requires Marshals(v)
    ensures Base64.Octets(Text(v, false))
  {
    hide Text;
    TextValid(v, false);
    Base64.ValidOctets(Text(v, false));
  }

  /** A token gives back the value it was made of. */
  lemma TokenReads(v: Json)
    requires Marshals(v)
    ensures Base64.Decode(TokenOf(v)).Some? && Parse(Base64.Decode(TokenOf(v)).value) == Some(Resolve(v))
  {
    hide Text, Base64.Encode, Base64.Decode, Parse, Resolve;
    TextOctets(v);
    Base64.DecodeEncode(Text(v, false));
    MarshalParse(v, false);
  }

  lemma TokenFits(v: Json, n: nat)
    requires Marshals(v) && Length(v, false) <= n && n <= 1536
    ensures |TokenOf(v)| <= MAX_TOKEN
  {
    hide Text, Base64.Encode, Length;
    TextOctets(v);
    Base64.EncodedLength(Text(v, false));
    LengthIsTextLength(v, false);
  }

  // ----- lengths of objects

  lemma OneMore(m: Member, rest: seq<Member>)
    requires PlainText(m.key) && Marshals(m.value) && MarshalsMembers(rest)
    ensures MarshalsMembers([m] + rest)
    ensures LengthMembers([m] + rest, false) == |m.key| + 4 + Length(m.value, false) + LengthMembers(rest, false)
  {
    hide PlainText, Length, Marshals;
    EscapePlain(m.key, false);
    assert ([m] + rest)[1..] == rest;
  }

  lemma OneMoreText(key: Bytes, s: Bytes, rest: seq<Member>)
    requires PlainText(key) && MarshalsMembers(rest)
    ensures MarshalsMembers([Member(key, JStr(s))] + rest)
    ensures LengthMembers([Member(key, JStr(s))] + rest, false) ==
      |key| + 6 + |Escape(s, false)| + LengthMembers(rest, false)
  {
    hide PlainText, MarshalsMembers, LengthMembers, Escape;
    OneMore(Member(key, JStr(s)), rest);
  }

  /** Reading back one member more whose key is plain. */
  lemma ResolveMore(m: Member, rest: seq<Member>)
    requires PlainText(m.key) && Marshals(m.value) && MarshalsMembers(rest)
    ensures MarshalsMembers([m] + rest)
      && ResolveMembers([m] + rest) == [Member(m.key, Resolve(m.value))] + ResolveMembers(rest)
  {
    hide PlainText, Resolve, Marshals, Clean;
    PlainClean(m.key);
    assert ([m] + rest)[1..] == rest;
  }

  lemma PlainClean(s: Bytes)
    requires PlainText(s)
    ensures Clean(s) == s
  {
    hide Clean;
    EscapePlain(s, false);
    CleanValid(s);
  }

  lemma NoMore()
    ensures MarshalsMembers([]) && LengthMembers([], false) == 0 && ResolveMembers([]) == []
  {
  }

  // ----- fields of a decoded object

  /** A string field: the last occurrence counts, null leaves it, another type is an error. */
  function TextField(ms: seq<Member>, key: Bytes): Option<Bytes>
  {
    if ms == [] then Some("")
    else
      var last := ms[|ms| - 1];
      match TextField(ms[..|ms| - 1], key)
      case None => None
      case Some(s) =>
        if last.key != key || last.value == JNull then Some(s)
        else if last.value.JStr? then Some(last.value.s)
        else None
  }

  /** An eight-bit number field. */
  function ByteField(ms: seq<Member>, key: Bytes): (r: Option<nat>)
    ensures r.Some? ==> r.value < 256
  {
    if ms == [] then Some(0)
    else
      var last := ms[|ms| - 1];
      match ByteField(ms[..|ms| - 1], key)
      case None => None
      case Some(n) =>
        if last.key != key || last.value == JNull then Some(n)
        else if last.value.JNum? && Decimals.Digits(last.value.lexeme) && Decimals.Number(last.value.lexeme) < 256
        then Some(Decimals.Number(last.value.lexeme))
        else None
  }

  function BoolField(ms: seq<Member>, key: Bytes): Option<bool>
  {
    if ms == [] then Some(false)
    else
      var last := ms[|ms| - 1];
      match BoolField(ms[..|ms| - 1], key)
      case None => None
      case Some(b) =>
        if last.key != key || last.value == JNull then Some(b)
        else if last.value.JBool? then Some(last.value.b)
        else None
  }

  /** Printable text is valid and unchanged by writing and reading. */
  lemma {:induction false} PrintableClean(s: Bytes)
    requires Printable(s)
    ensures Valid(s) && Clean(s) == s
  {
    AsciiValid(s);
    CleanValid(s);
  }

  // ----- why tokens are written without HTML escaping

  lemma {:induction false} HtmlCostsSix(s: Bytes)
    requires forall i :: 0 <= i < |s| ==> HtmlByte(s[i])
    ensures |Escape(s, true)| == 6 * |s|
  {
    hide Announced;
    if s != [] {
      HtmlWidth(s);
      HtmlCostsSix(s[1..]);
    }
  }

  lemma HtmlWidth(s: Bytes)
    requires s != [] && HtmlByte(s[0])
    ensures Width(s) == 1 && Stride(s) == 1 && |EscapeByte(s[0], true)| == 6
  {
  }

  /** With HTML escaping a legal tracestate could overflow the token; without it none can. */
  lemma HtmlEscapingWouldOverflow(s: Bytes)
    requires |s| == MAX_STATE && forall i :: 0 <= i < |s| ==> HtmlByte(s[i])
    ensures Base64.Octets(Text(JStr(s), true)) && |Base64.Encode(Text(JStr(s), true))| > MAX_TOKEN
    ensures Printable(s) && |TokenOf(JStr(s))| <= MAX_TOKEN
  {
    hide Text, Base64.Encode, Escape;
    HtmlCostsSix(s);
    TextValid(JStr(s), true);
    Base64.ValidOctets(Text(JStr(s), true));
    Base64.EncodedLength(Text(JStr(s), true));
    LengthIsTextLength(JStr(s), true);
    EscapePrintableLength(s);
    TokenFits(JStr(s), 1026);
  }
}
