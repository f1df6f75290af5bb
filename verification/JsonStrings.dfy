/** How encoding/json spells strings, with or without HTML escaping, and how it
    respells the strings of raw text that it embeds. */
module JsonStrings {
  import opened Bytes
  import opened Utf8
  import opened JsonText

  predicate HtmlByte(c: byte) { c == '<' || c == '>' || c == '&' }

  /** U+2028 or U+2029, which are escaped in every mode. */
  predicate LineSeparator(s: Bytes) {
    |s| >= 3 && s[0] as int == 0xE2 && s[1] as int == 0x80 && (s[2] as int == 0xA8 || s[2] as int == 0xA9)
  }

  function SeparatorEscape(s: Bytes): Bytes
    requires LineSeparator(s)
  {
    if s[2] as int == 0xA8 then "\\u2028" else "\\u2029"
  }

  function UnitEscape(c: byte): (e: Bytes)
    requires c as int < 0x80
    ensures |e| == 6
  {
    "\\u00" + [HexDigit(c as int / 16), HexDigit(c as int % 16)]
  }

  function EscapeByte(c: byte, html: bool): Bytes
    requires c as int < 0x80
  {
    if c == '"' then "\\\""
    else if c == '\\' then "\\\\"
    else if c as int == 8 then "\\b"
    else if c as int == 12 then "\\f"
    else if c as int == 10 then "\\n"
    else if c as int == 13 then "\\r"
    else if c as int == 9 then "\\t"
    else if c < ' ' || (html && HtmlByte(c)) then UnitEscape(c)
    else [c]
  }

  /** Bytes of s that one output chunk stands for. */
  function Stride(s: Bytes): (n: nat)
    requires s != []
    ensures 0 < n <= |s|
  {
    if Width(s) == 0 then 1 else Width(s)
  }

  function EscapeChunk(s: Bytes, html: bool): Bytes
    requires s != []
  {
    if Width(s) == 0 then "\\ufffd"
    else if Width(s) == 1 then EscapeByte(s[0], html)
    else if LineSeparator(s) then SeparatorEscape(s)
    else s[..Width(s)]
  }

  function Escape(s: Bytes, html: bool): Bytes
  {
    if s == [] then [] else EscapeChunk(s, html) + Escape(s[Stride(s)..], html)
  }

  /** What an output chunk means: the character itself, or U+FFFD for a malformed byte. */
  function Meaning(s: Bytes): Bytes
    requires s != []
  {
    if Width(s) == 0 then REPLACEMENT else s[..Width(s)]
  }

  /** What reading a written string gives: malformed bytes become U+FFFD. */
  function Clean(s: Bytes): Bytes
  {
    if s == [] then [] else Meaning(s) + Clean(s[Stride(s)..])
  }

  lemma {:induction false} CleanValid(s: Bytes)
    requires Valid(s)
    ensures Clean(s) == s
  {
    if s != [] {
      CleanValid(s[Width(s)..]);
      assert s == s[..Width(s)] + s[Width(s)..];
    }
  }

  lemma UnitEscapeStep(c: byte, rest: Bytes)
    requires c as int < 0x80
    ensures BodyStep(UnitEscape(c) + rest) == Piece(6, [c])
    ensures Unit(UnitEscape(c) + rest) == Some(c as int)
  {
    var t := UnitEscape(c) + rest;
    assert t[0] == '\\' && t[1] == 'u' && t[2] == '0' && t[3] == '0';
    assert t[4] == HexDigit(c as int / 16) && t[5] == HexDigit(c as int % 16);
    assert c as int == c as int / 16 * 16 + c as int % 16;
    assert Unit(t) == Some(c as int);
    assert EncodeRune(c as int) == [c];
  }

  lemma SeparatorEscapeStep(s: Bytes, rest: Bytes)
    requires LineSeparator(s)
    ensures BodyStep(SeparatorEscape(s) + rest) == Piece(6, s[..3])
    ensures LowUnit(SeparatorEscape(s) + rest) == None
  {
    var t := SeparatorEscape(s) + rest;
    assert t[0] == '\\' && t[1] == 'u' && t[2] == '2' && t[3] == '0' && t[4] == '2';
    assert t[5] == if s[2] as int == 0xA8 then '8' else '9';
    assert EncodeRune(0x2028) == [0xE2 as char, 0x80 as char, 0xA8 as char];
    assert EncodeRune(0x2029) == [0xE2 as char, 0x80 as char, 0xA9 as char];
  }

  lemma EscapeByteStep(c: byte, html: bool, rest: Bytes)
    requires c as int < 0x80
    ensures BodyStep(EscapeByte(c, html) + rest) == Piece(|EscapeByte(c, html)|, [c])
  {
    var e := EscapeByte(c, html);
    var t := e + rest;
    if e == UnitEscape(c) {
      UnitEscapeStep(c, rest);
    } else {
      assert t[0] == e[0];
      assert |e| > 1 ==> t[1] == e[1];
      assert |e| == 1 ==> t[..1] == [c];
      if |e| == 2 {
        assert Unit(t) == None;
      }
    }
  }

  /** One output chunk reads back as the character it was written for. */
  lemma EscapeChunkStep(s: Bytes, html: bool, rest: Bytes)
    requires s != []
    ensures BodyStep(EscapeChunk(s, html) + rest)
         == Piece(|EscapeChunk(s, html)|, Meaning(s))
  {
    var t := EscapeChunk(s, html) + rest;
    if Width(s) == 0 {
      assert t[0] == '\\' && t[1] == 'u' && t[2] == 'f' && t[3] == 'f' && t[4] == 'f' && t[5] == 'd';
      assert Unit(t) == Some(0xFFFD);
    } else if Width(s) == 1 {
      EscapeByteStep(s[0], html, rest);
    } else if LineSeparator(s) {
      assert Width(s) == 3;
      SeparatorEscapeStep(s, rest);
    } else {
      WidthPrefix(s, rest);
      assert t[0] == s[0];
      assert t[..Width(s)] == s[..Width(s)];
    }
  }

  lemma EscapeUnfold(s: Bytes, html: bool)
    requires s != []
    ensures Escape(s, html) == EscapeChunk(s, html) + Escape(s[Stride(s)..], html)
    ensures Clean(s) == Meaning(s) + Clean(s[Stride(s)..])
  {
    hide EscapeChunk, Meaning, Stride;
  }

  lemma {:induction false} EscapeLex(s: Bytes, html: bool)
    ensures LexBody(Escape(s, html) + "\"") == Some(Body(|Escape(s, html)|, Clean(s)))
  {
    hide BodyStep, LexBody, EscapeChunk, Meaning, Width;
    if s == [] {
      AddEmpty("\"");
      LexBodyUnfold("\"");
      assert BodyStep("\"") == End by { QuoteEnds(); }
    } else {
      hide Escape, Clean;
      var chunk, tail := EscapeChunk(s, html), Escape(s[Stride(s)..], html);
      EscapeLex(s[Stride(s)..], html);
      EscapeUnfold(s, html);
      EscapeChunkStep(s, html, tail + "\"");
      Assoc(chunk, tail, "\"");
      LexBodyFrom(chunk, tail + "\"", Meaning(s));
    }
  }

  lemma QuoteEnds()
    ensures BodyStep("\"") == End
  {
  }

  /** The token encoding/json writes for a string. */
  function StringOf(s: Bytes, html: bool): Token
  {
    Token(Str(Clean(s)), Quoted(Escape(s, html)))
  }

  lemma StringOfWf(s: Bytes, html: bool)
    ensures WfToken(StringOf(s, html))
  {
    EscapeLex(s, html);
    QuotedToken(Escape(s, html) + "\"", Clean(s));
    Assoc("\"", Escape(s, html), "\"");
  }

  lemma QuotedString(t: Bytes, text: Bytes)
    requires |t| > 1 && t[0] == '"' && LexBody(t[1..]) == Some(Body(|t| - 2, text))
    ensures StringToken(t) == Some(Token(Str(text), t))
  {
    hide LexBody;
    AddEmpty(t);
  }

  /** A body with its closing quote makes a token once it has its opening quote. */
  lemma QuotedToken(y: Bytes, text: Bytes)
    requires y != [] && LexBody(y) == Some(Body(|y| - 1, text))
    ensures WfToken(Token(Str(text), "\"" + y))
  {
    hide LexBody, StringToken, NextToken;
    var t := "\"" + y;
    DropTake("\"", y);
    QuotedString(t, text);
    StringIsNext(t);
  }

  lemma EscapeChunkValid(s: Bytes, html: bool)
    requires s != []
    ensures Valid(EscapeChunk(s, html))
  {
    if Width(s) > 1 && !LineSeparator(s) {
      ValidHead(s);
    } else {
      AsciiValid(EscapeChunk(s, html));
    }
  }

  lemma {:induction false} EscapeValid(s: Bytes, html: bool)
    ensures Valid(Escape(s, html))
  {
    hide EscapeChunk;
    if s != [] {
      EscapeValid(s[Stride(s)..], html);
      EscapeChunkValid(s, html);
      ValidConcat(EscapeChunk(s, html), Escape(s[Stride(s)..], html));
    }
  }

  lemma StringOfValid(s: Bytes, html: bool)
    ensures Valid(StringOf(s, html).spelling)
  {
    EscapeValid(s, html);
    AsciiValid("\"");
    ValidConcat("\"", Escape(s, html));
    ValidConcat("\"" + Escape(s, html), "\"");
  }

  /** Printable ASCII, the only bytes a tracestate may hold. */
  predicate Printable(s: Bytes) { forall i :: 0 <= i < |s| ==> ' ' <= s[i] <= '~' }

  lemma {:induction false} EscapePrintableLength(s: Bytes)
    requires Printable(s)
    ensures |Escape(s, false)| <= 2 * |s|
  {
    hide EscapeChunk, Stride;
    if s != [] {
      PrintableChunk(s);
      EscapePrintableLength(s[1..]);
    }
  }

  lemma PrintableChunk(s: Bytes)
    requires s != [] && Printable(s)
    ensures Stride(s) == 1 && |EscapeChunk(s, false)| <= 2
  {
  }

  // ----- respelling the strings of embedded raw text

  /** The new spelling of one character of a string body. */
  function HtmlChunk(y: Bytes): (c: Bytes)
    requires BodyStep(y).Piece?
    ensures c != []
  {
    var n := BodyStep(y).n;
    if n == 1 && HtmlByte(y[0]) then UnitEscape(y[0])
    else if n == 3 && LineSeparator(y) then SeparatorEscape(y)
    else y[..n]
  }

  /** The new spelling of a body, up to and including its closing quote. */
  function Html(y: Bytes): Bytes
  {
    if BodyStep(y).Piece? then HtmlChunk(y) + Html(y[BodyStep(y).n..]) else y
  }

  lemma UnitHead(y: Bytes, t: Bytes)
    requires |y| >= 6 && |t| >= 6 && forall i :: 0 <= i < 6 ==> t[i] == y[i]
    ensures Unit(t) == Unit(y)
  {
  }

  lemma EscapedUnits(y: Bytes)
    requires |y| > 0 && y[0] == '\\' && Escaped(y).Piece?
    ensures Escaped(y).n == 2 ==> Simple(y[1]).Some?
    ensures Escaped(y).n == 12 ==> Unit(y[6..]).Some?
  {
    hide HexValue, EncodeRune, Simple;
  }

  lemma EscapedAscii(y: Bytes)
    requires |y| > 0 && y[0] == '\\' && Escaped(y).Piece?
    ensures forall i :: 0 <= i < Escaped(y).n ==> y[i] as int < 0x80
  {
    hide HexValue, EncodeRune, Escaped;
    EscapedShape(y);
    EscapedUnits(y);
    if Escaped(y).n == 12 {
      assert forall i :: 0 <= i < 6 ==> y[6 + i] == y[6..][i];
    }
  }

  /** A valid body splits into well-formed characters and ASCII escapes. */
  lemma PieceValid(y: Bytes)
    requires Valid(y) && BodyStep(y).Piece?
    ensures var n := BodyStep(y).n;
      Valid(y[..n]) && Valid(y[n..]) && (y[0] != '\\' ==> n == Width(y))
  {
    var n := BodyStep(y).n;
    if y[0] == '\\' {
      EscapedAscii(y);
      AsciiValid(y[..n]);
    } else {
      ValidHead(y);
    }
    assert y == y[..n] + y[n..];
    ValidConcat(y[..n], y[n..]);
  }

  lemma HtmlChunkValid(y: Bytes)
    requires Valid(y) && BodyStep(y).Piece?
    ensures Valid(HtmlChunk(y))
  {
    PieceValid(y);
    if HtmlChunk(y) != y[..BodyStep(y).n] {
      AsciiValid(HtmlChunk(y));
    }
  }

  lemma KeptLow(y: Bytes, rest: Bytes)
    requires BodyStep(y).Piece?
    ensures LowUnit(y[..BodyStep(y).n] + rest) == LowUnit(y)
  {
    hide HexValue, Width, EncodeRune, LineSeparator;
    var n := BodyStep(y).n;
    var t := y[..n] + rest;
    assert forall i :: 0 <= i < n ==> t[i] == y[i];
    if y[0] == '\\' {
      if n == 2 {
        assert y[1] != 'u';
      } else {
        UnitHead(y, t);
      }
    }
  }

  lemma HtmlChunkLow(y: Bytes, rest: Bytes)
    requires BodyStep(y).Piece?
    ensures LowUnit(HtmlChunk(y) + rest) == LowUnit(y)
  {
    hide BodyStep;
    if BodyStep(y).n == 1 && HtmlByte(y[0]) {
      UnitEscapeStep(y[0], rest);
    } else if BodyStep(y).n == 3 && LineSeparator(y) {
      SeparatorEscapeStep(y, rest);
    } else {
      KeptLow(y, rest);
    }
  }

  lemma HtmlLow(y: Bytes)
    requires Valid(y) && !BodyStep(y).Bad?
    ensures LowUnit(Html(y)) == LowUnit(y)
  {
    if BodyStep(y).Piece? {
      HtmlChunkLow(y, Html(y[BodyStep(y).n..]));
    }
  }

  /** One respelled character keeps its meaning before any text with the same low unit. */
  lemma HtmlChunkStep(y: Bytes, rest: Bytes)
    requires Valid(y) && BodyStep(y).Piece? && LowUnit(rest) == LowUnit(y[BodyStep(y).n..])
    ensures BodyStep(HtmlChunk(y) + rest) == Piece(|HtmlChunk(y)|, BodyStep(y).out)
  {
    hide Escaped, LowUnit, Valid;
    PieceValid(y);
    var n := BodyStep(y).n;
    if n == 1 && HtmlByte(y[0]) {
      UnitEscapeStep(y[0], rest);
      assert y[..1] == [y[0]];
    } else if n == 3 && LineSeparator(y) {
      SeparatorEscapeStep(y, rest);
    } else {
      KeptStep(y, rest);
    }
  }

  lemma KeptStep(y: Bytes, rest: Bytes)
    requires BodyStep(y).Piece? && LowUnit(rest) == LowUnit(y[BodyStep(y).n..])
    requires y[0] != '\\' ==> BodyStep(y).n == Width(y)
    ensures BodyStep(y[..BodyStep(y).n] + rest) == BodyStep(y)
  {
    hide Escaped, LowUnit;
    var n := BodyStep(y).n;
    var t := y[..n] + rest;
    assert t[0] == y[0];
    if y[0] == '\\' {
      EscapedLocal(y, rest);
    } else {
      WidthPrefix(y, rest);
      assert t[..n] == y[..n];
    }
  }

  lemma EscapedLocal(y: Bytes, rest: Bytes)
    requires |y| > 0 && y[0] == '\\' && Escaped(y).Piece?
    requires LowUnit(rest) == LowUnit(y[Escaped(y).n..])
    ensures y[..Escaped(y).n] + rest != [] && (y[..Escaped(y).n] + rest)[0] == '\\'
    ensures Escaped(y[..Escaped(y).n] + rest) == Escaped(y)
  {
    hide HexValue, EncodeRune, Escaped;
    var n := Escaped(y).n;
    var t := y[..n] + rest;
    EscapedShape(y);
    assert forall i :: 0 <= i < n ==> t[i] == y[i];
    if n > 2 {
      UnitHead(y, t);
      if n == 6 {
        DropTake(y[..6], rest);
      } else {
        assert forall i :: 0 <= i < 6 ==> t[6..][i] == y[6..][i];
        UnitHead(y[6..], t[6..]);
      }
    }
    EscapedSame(y, t);
  }

  lemma EscapedShape(y: Bytes)
    requires |y| > 0 && y[0] == '\\' && Escaped(y).Piece?
    ensures Escaped(y).n == 2 ==> y[1] != 'u'
    ensures Escaped(y).n == 2 || Escaped(y).n == 6 || Escaped(y).n == 12
    ensures Escaped(y).n == 2 <==> Unit(y) == None
    ensures Escaped(y).n == 12 ==> |y[6..]| >= 6
  {
    hide HexValue, EncodeRune;
  }

  /** Reading a respelled character and then the rest of a body. */
  lemma HtmlLexStep(y: Bytes, rest: Bytes)
    requires Valid(y) && BodyStep(y).Piece? && LexBody(rest).Some?
    requires LowUnit(rest) == LowUnit(y[BodyStep(y).n..])
    ensures LexBody(HtmlChunk(y) + rest)
         == Some(Body(|HtmlChunk(y)| + LexBody(rest).value.n, BodyStep(y).out + LexBody(rest).value.text))
  {
    hide BodyStep, HtmlChunk, LexBody, LowUnit, Valid;
    HtmlChunkStep(y, rest);
    LexBodyFrom(HtmlChunk(y), rest, BodyStep(y).out);
  }

  /** Respelling a string body does not change its meaning. */
  lemma {:induction false} HtmlLex(y: Bytes)
    requires Valid(y) && LexBody(y).Some? && LexBody(y).value.n == |y| - 1
    ensures Html(y) != [] && LexBody(Html(y)) == Some(Body(|Html(y)| - 1, LexBody(y).value.text))
  {
    hide BodyStep, HtmlChunk, LowUnit, Valid;
    if BodyStep(y).Piece? {
      var n := BodyStep(y).n;
      PieceValid(y);
      HtmlLex(y[n..]);
      HtmlLow(y[n..]);
      HtmlLexStep(y, Html(y[n..]));
    }
  }

  /** Nor its well-formedness. */
  lemma {:induction false} HtmlValid(y: Bytes)
    requires Valid(y)
    ensures Valid(Html(y))
  {
    hide BodyStep, HtmlChunk, Valid;
    if BodyStep(y).Piece? {
      var n := BodyStep(y).n;
      PieceValid(y);
      HtmlValid(y[n..]);
      HtmlChunkValid(y);
      ValidConcat(HtmlChunk(y), Html(y[n..]));
    }
  }

  /** A token of embedded raw text as encoding/json writes it. */
  function HtmlToken(tok: Token): Token
    requires WfToken(tok)
  {
    if tok.sym.Str? then Token(tok.sym, "\"" + Html(tok.spelling[1..])) else tok
  }

  lemma HtmlTokenWf(tok: Token)
    requires WfToken(tok) && Valid(tok.spelling)
    ensures WfToken(HtmlToken(tok)) && HtmlToken(tok).sym == tok.sym && Valid(HtmlToken(tok).spelling)
  {
    hide LexBody, Html, Valid, WfToken;
    if tok.sym.Str? {
      StringTokenBody(tok);
      var y := tok.spelling[1..];
      AsciiValid("\"");
      assert tok.spelling == "\"" + y;
      ValidConcat("\"", y);
      HtmlLex(y);
      HtmlValid(y);
      ValidConcat("\"", Html(y));
      QuotedToken(Html(y), tok.sym.text);
    }
  }

  /** A string token is a quote and a body that ends the token. */
  lemma StringTokenBody(tok: Token)
    requires WfToken(tok) && tok.sym.Str?
    ensures |tok.spelling| > 1 && tok.spelling[0] == '"'
    ensures LexBody(tok.spelling[1..]) == Some(Body(|tok.spelling| - 2, tok.sym.text))
  {
    hide LexBody, NumberRun, ValidNumber;
    var s := tok.spelling;
    if s[0] == '"' {
      StringIsNext(s);
    }
  }

  predicate ValidTokens(ts: seq<Token>) { forall i :: 0 <= i < |ts| ==> Valid(ts[i].spelling) }

  lemma ValidTokensFrom(tok: Token, ts: seq<Token>)
    requires Valid(tok.spelling) && ValidTokens(ts)
    ensures ValidTokens([tok] + ts)
  {
    hide Valid;
  }

  /** Every token of well-formed text is well-formed text. */
  lemma {:induction false} LexValid(t: Bytes)
    requires Valid(t) && Lex(t).Some?
    ensures ValidTokens(Lex(t).value)
  {
    hide NextToken, Valid;
    if t == [] {
    } else if Space(t[0]) {
      Split(t, 1);
      AsciiValid(t[..1]);
      ValidConcat(t[..1], t[1..]);
      LexValid(t[1..]);
    } else {
      LexHead(t);
      var tok := NextToken(t).value;
      TokenValid(t);
      Split(t, |tok.spelling|);
      assert tok.spelling == t[..|tok.spelling|];
      ValidConcat(tok.spelling, t[|tok.spelling|..]);
      LexValid(t[|tok.spelling|..]);
      ValidTokensFrom(tok, Lex(t[|tok.spelling|..]).value);
    }
  }

  lemma TokenValid(t: Bytes)
    requires Valid(t) && t != [] && NextToken(t).Some?
    ensures Valid(NextToken(t).value.spelling)
  {
    hide BodyStep, ValidNumber;
    if t[0] == '"' {
      StringIsNext(t);
      StringTokenValid(t);
    } else {
      AsciiValid(NextToken(t).value.spelling);
    }
  }

  lemma StringTokenValid(t: Bytes)
    requires Valid(t) && t != [] && t[0] == '"' && StringToken(t).Some?
    ensures Valid(StringToken(t).value.spelling)
  {
    hide BodyStep;
    var n := LexBody(t[1..]).value.n;
    AsciiValid("\"");
    Split(t, 1);
    assert t[..1] == "\"";
    ValidConcat("\"", t[1..]);
    BodyValid(t[1..]);
    DropDrop(t, 1, n + 1);
    ValidConcat("\"", t[1..][..n + 1]);
  }

  lemma {:induction false} BodyValid(t: Bytes)
    requires Valid(t) && LexBody(t).Some?
    ensures Valid(t[..LexBody(t).value.n + 1])
  {
    hide BodyStep;
    var m := LexBody(t).value.n + 1;
    if BodyStep(t).Piece? {
      var n := BodyStep(t).n;
      PieceValid(t);
      BodyValid(t[n..]);
      BodyValidFrom(t, n, m);
    } else {
      assert t[..1] == ['"'];
      AsciiValid(t[..1]);
    }
  }

  lemma BodyValidFrom(t: Bytes, n: nat, m: nat)
    requires n <= m <= |t| && Valid(t[..n]) && Valid(t[n..][..m - n])
    ensures Valid(t[..m])
  {
    assert t[..m] == t[..n] + t[n..][..m - n];
    ValidConcat(t[..n], t[n..][..m - n]);
  }
}
