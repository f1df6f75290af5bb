/** The lexical level of JSON (RFC 8259, sections 2, 3, 6 and 7): tokens with their
    spelling and their meaning, and the spelling that encoding/json writes. */
module JsonText {
  import opened Bytes
  import opened Utf8

  /** What a token means to the grammar. */
  datatype Sym =
    | LBrace | RBrace | LBracket | RBracket | Colon | Comma
    | True | False | Null
    | Number(lexeme: Bytes)
    | Str(text: Bytes)

  /** A token: its meaning and how it is spelled. */
  datatype Token = Token(sym: Sym, spelling: Bytes)

  // ----- strings

  /** One character of a string body: the end, an error, or n bytes that mean out. */
  datatype Piece = End | Bad | Piece(n: nat, out: Bytes)

  const REPLACEMENT: Bytes := EncodeRune(0xFFFD)

  predicate IsHex(c: byte) { '0' <= c <= '9' || 'a' <= c <= 'f' || 'A' <= c <= 'F' }

  function HexValue(c: byte): (v: int)
    requires IsHex(c)
    ensures 0 <= v < 16
  {
    if c <= '9' then c as int - '0' as int
    else if c <= 'F' then c as int - 'A' as int + 10
    else c as int - 'a' as int + 10
  }

  function HexDigit(v: int): (c: byte)
    requires 0 <= v < 16
    ensures IsHex(c) && HexValue(c) == v && c != '"' && c != '\\'
  {
    if v < 10 then ('0' as int + v) as char else ('a' as int + v - 10) as char
  }

  /** The value of a \uXXXX escape at the head of t. */
  function Unit(t: Bytes): (u: Option<int>)
    ensures u.Some? ==> 6 <= |t| && 0 <= u.value < 0x10000
  {
    if |t| >= 6 && t[0] == '\\' && t[1] == 'u' && IsHex(t[2]) && IsHex(t[3]) && IsHex(t[4]) && IsHex(t[5])
    then Some(HexValue(t[2]) * 0x1000 + HexValue(t[3]) * 0x100 + HexValue(t[4]) * 0x10 + HexValue(t[5]))
    else None
  }

  predicate Surrogate(u: int) { 0xD800 <= u < 0xE000 }

  /** A low-surrogate escape at the head of t. */
  function LowUnit(t: Bytes): (u: Option<int>)
    ensures u.Some? ==> 6 <= |t| && 0xDC00 <= u.value < 0xE000
  {
    if Unit(t).Some? && 0xDC00 <= Unit(t).value < 0xE000 then Unit(t) else None
  }

  /** The character named by a two-byte escape. */
  function Simple(c: byte): Option<byte>
  {
    match c
    case '"' => Some('"')
    case '\\' => Some('\\')
    case '/' => Some('/')
    case 'b' => Some(8 as char)
    case 'f' => Some(12 as char)
    case 'n' => Some(10 as char)
    case 'r' => Some(13 as char)
    case 't' => Some(9 as char)
    case _ => None
  }

  /** An escape; an unpaired surrogate becomes the replacement character. */
  function Escaped(t: Bytes): (p: Piece)
    requires |t| > 0 && t[0] == '\\'
    ensures p.Piece? ==> 2 <= p.n <= |t|
    ensures !p.End?
  {
    match Unit(t)
    case Some(u) =>
      if !Surrogate(u) then Piece(6, EncodeRune(u))
      else
        var low := LowUnit(t[6..]);
        if u < 0xDC00 && low.Some?
        then Piece(12, EncodeRune(0x10000 + (u - 0xD800) * 0x400 + (low.value - 0xDC00)))
        else Piece(6, REPLACEMENT)
    case None =>
      if |t| >= 2 && Simple(t[1]).Some? then Piece(2, [Simple(t[1]).value]) else Bad
  }

  function BodyStep(t: Bytes): (p: Piece)
    ensures p.Piece? ==> 0 < p.n <= |t|
    ensures p.End? ==> |t| > 0 && t[0] == '"'
  {
    if t == [] then Bad
    else if t[0] == '"' then End
    else if t[0] == '\\' then Escaped(t)
    else if t[0] < ' ' then Bad
    else if Width(t) == 0 then Piece(1, REPLACEMENT)
    else Piece(Width(t), t[..Width(t)])
  }

  /** A string body up to its closing quote: its length and its meaning. */
  datatype Body = Body(n: nat, text: Bytes)

  /** A body whose first character is n bytes that mean out. */
  function BodyAfter(n: nat, out: Bytes, rest: Option<Body>): Option<Body>
  {
    match rest
    case None => None
    case Some(b) => Some(Body(n + b.n, out + b.text))
  }

  function LexBody(t: Bytes): (b: Option<Body>)
    ensures b.Some? ==> b.value.n < |t| && t[b.value.n] == '"'
  {
    match BodyStep(t)
    case End => Some(Body(0, []))
    case Bad => None
    case Piece(n, out) => BodyAfter(n, out, LexBody(t[n..]))
  }

  /** One step of reading a body. */
  lemma LexBodyUnfold(t: Bytes)
    ensures BodyStep(t).End? ==> LexBody(t) == Some(Body(0, []))
    ensures BodyStep(t).Bad? ==> LexBody(t) == None
    ensures BodyStep(t).Piece? ==>
      LexBody(t) == BodyAfter(BodyStep(t).n, BodyStep(t).out, LexBody(t[BodyStep(t).n..]))
  {
    hide BodyStep, BodyAfter;
  }

  /** Reading one character and then the rest of a body. */
  lemma LexBodyFrom(head: Bytes, rest: Bytes, out: Bytes)
    requires head != [] && BodyStep(head + rest) == Piece(|head|, out) && LexBody(rest).Some?
    ensures LexBody(head + rest) == Some(Body(|head| + LexBody(rest).value.n, out + LexBody(rest).value.text))
  {
    hide BodyStep;
    DropTake(head, rest);
  }

  /** An escape is read from the units at its head alone. */
  lemma EscapedSame(y: Bytes, t: Bytes)
    requires |y| > 0 && y[0] == '\\' && |t| > 0 && t[0] == '\\' && Unit(t) == Unit(y)
    requires Unit(y).None? ==> (|t| < 2 && |y| < 2) || (|t| > 1 && |y| > 1 && t[1] == y[1])
    requires Unit(y).Some? ==> LowUnit(t[6..]) == LowUnit(y[6..])
    ensures Escaped(t) == Escaped(y)
  {
    hide Unit, LowUnit, EncodeRune, Simple;
  }

  /** Width stops at the first quote at the latest. */
  lemma WidthBeforeQuote(y: Bytes, rest: Bytes)
    requires y != [] && y[|y| - 1] == '"'
    ensures Width(y + rest) == Width(y)
  {
    assert forall i :: 0 <= i < |y| ==> (y + rest)[i] == y[i];
  }

  lemma BodyStepLocal(y: Bytes, rest: Bytes)
    requires y != [] && y[|y| - 1] == '"'
    ensures BodyStep(y + rest) == BodyStep(y)
  {
    hide Width, Escaped;
    assert forall i :: 0 <= i < |y| ==> (y + rest)[i] == y[i];
    if y[0] == '\\' {
      EscapedBeforeQuote(y, rest);
    } else if y[0] != '"' && y[0] >= ' ' {
      WidthBeforeQuote(y, rest);
      assert (y + rest)[..Width(y)] == y[..Width(y)];
    }
  }

  lemma UnitBeforeQuote(y: Bytes, rest: Bytes)
    requires y != [] && y[|y| - 1] == '"'
    ensures Unit(y + rest) == Unit(y)
  {
    hide HexValue;
    assert forall i :: 0 <= i < |y| ==> (y + rest)[i] == y[i];
  }

  lemma EscapedBeforeQuote(y: Bytes, rest: Bytes)
    requires y != [] && y[0] == '\\' && y[|y| - 1] == '"'
    ensures Escaped(y + rest) == Escaped(y)
  {
    hide Escaped, HexValue;
    UnitBeforeQuote(y, rest);
    if Unit(y).Some? {
      assert |y| > 6;
      assert (y + rest)[6..] == y[6..] + rest;
      UnitBeforeQuote(y[6..], rest);
    }
    EscapedSame(y, y + rest);
  }

  /** What follows the closing quote does not change a string. */
  lemma {:induction false} LexBodyLocal(y: Bytes, rest: Bytes)
    requires LexBody(y).Some? && LexBody(y).value.n == |y| - 1
    ensures LexBody(y + rest) == LexBody(y)
  {
    hide BodyStep, LexBody;
    LexBodyUnfold(y);
    LexBodyUnfold(y + rest);
    BodyStepLocal(y, rest);
    if BodyStep(y).Piece? {
      var n := BodyStep(y).n;
      LexBodyLocal(y[n..], rest);
      assert (y + rest)[n..] == y[n..] + rest;
    }
  }

  // ----- numbers

  predicate NumberByte(c: byte) { '0' <= c <= '9' || c == '-' || c == '+' || c == '.' || c == 'e' || c == 'E' }

  function NumberRun(t: Bytes): (n: nat)
    ensures n <= |t|
    ensures n < |t| ==> !NumberByte(t[n])
    ensures forall i :: 0 <= i < n ==> NumberByte(t[i])
  {
    if t == [] || !NumberByte(t[0]) then 0 else 1 + NumberRun(t[1..])
  }

  function Digits(t: Bytes): (n: nat)
    ensures n <= |t|
  {
    if t == [] || !('0' <= t[0] <= '9') then 0 else 1 + Digits(t[1..])
  }

  predicate ValidExponent(s: Bytes) {
    s == [] ||
    ((s[0] == 'e' || s[0] == 'E') &&
     var r := if |s| > 1 && (s[1] == '+' || s[1] == '-') then s[2..] else s[1..];
     r != [] && Digits(r) == |r|)
  }

  predicate ValidFraction(s: Bytes) {
    if s != [] && s[0] == '.' then
      var d := Digits(s[1..]);
      d > 0 && ValidExponent(s[1 + d..])
    else ValidExponent(s)
  }

  /** The number grammar of section 6. */
  predicate ValidNumber(s: Bytes) {
    NumberRun(s) == |s| &&
    var a := if s != [] && s[0] == '-' then s[1..] else s;
    var n := Digits(a);
    n > 0 && (a[0] != '0' || n == 1) && ValidFraction(a[n..])
  }

  lemma {:induction false} NumberRunStops(s: Bytes, rest: Bytes)
    requires NumberRun(s) == |s|
    requires rest == [] || !NumberByte(rest[0])
    ensures NumberRun(s + rest) == |s|
  {
    if s == [] {
      assert s + rest == rest;
    } else {
      assert (s + rest)[1..] == s[1..] + rest;
      NumberRunStops(s[1..], rest);
    }
  }

  // ----- tokens

  predicate Space(c: byte) { c == ' ' || c as int == 9 || c as int == 10 || c as int == 13 }

  function Punctuation(c: byte): Option<Sym>
  {
    match c
    case '{' => Some(LBrace)
    case '}' => Some(RBrace)
    case '[' => Some(LBracket)
    case ']' => Some(RBracket)
    case ':' => Some(Colon)
    case ',' => Some(Comma)
    case _ => None
  }

  function Quoted(body: Bytes): Bytes { "\"" + body + "\"" }

  function Keyword(t: Bytes): (tok: Option<Token>)
    ensures tok.Some? ==> tok.value.spelling <= t && 4 <= |tok.value.spelling|
    ensures tok.Some? ==> tok.value.spelling[0] in {'t', 'f', 'n'}
    ensures tok.Some? ==> forall i :: 0 <= i < |tok.value.spelling| ==> 'a' <= tok.value.spelling[i] <= 'z'
  {
    if "true" <= t then Some(Token(True, "true"))
    else if "false" <= t then Some(Token(False, "false"))
    else if "null" <= t then Some(Token(Null, "null"))
    else None
  }

  function StringToken(t: Bytes): (tok: Option<Token>)
    requires t != [] && t[0] == '"'
    ensures tok.Some? ==> 2 <= |tok.value.spelling| && tok.value.spelling <= t
  {
    match LexBody(t[1..])
    case None => None
    case Some(b) => Some(Token(Str(b.text), t[..b.n + 2]))
  }

  function NumberToken(t: Bytes): (tok: Option<Token>)
    ensures tok.Some? ==> 0 < |tok.value.spelling| && tok.value.spelling <= t
  {
    var n := NumberRun(t);
    if n > 0 && ValidNumber(t[..n]) then Some(Token(Number(t[..n]), t[..n])) else None
  }

  function NextToken(t: Bytes): (tok: Option<Token>)
    requires t != []
    ensures tok.Some? ==> 0 < |tok.value.spelling| <= |t| && tok.value.spelling <= t
  {
    if Punctuation(t[0]).Some? then Some(Token(Punctuation(t[0]).value, [t[0]]))
    else if Keyword(t).Some? then Keyword(t)
    else if t[0] == '"' then StringToken(t)
    else NumberToken(t)
  }

  lemma StringIsNext(t: Bytes)
    requires t != [] && t[0] == '"'
    ensures NextToken(t) == StringToken(t) && Keyword(t) == None
  {
    hide StringToken, NumberToken;
    assert "true"[0] != t[0] && "false"[0] != t[0] && "null"[0] != t[0];
  }

  lemma NumberIsNext(t: Bytes)
    requires t != [] && NumberByte(t[0])
    ensures NextToken(t) == NumberToken(t) && Keyword(t) == None
  {
    hide StringToken, NumberToken;
    assert "true"[0] != t[0] && "false"[0] != t[0] && "null"[0] != t[0];
  }

  function Lex(t: Bytes): Option<seq<Token>>
  {
    if t == [] then Some([])
    else if Space(t[0]) then Lex(t[1..])
    else
      match NextToken(t)
      case None => None
      case Some(tok) =>
        match Lex(t[|tok.spelling|..])
        case None => None
        case Some(rest) => Some([tok] + rest)
  }

  /** Text that starts with a token is read as that token and the tokens of the rest. */
  lemma LexHead(t: Bytes)
    requires t != [] && !Space(t[0]) && Lex(t).Some?
    ensures NextToken(t).Some?
    ensures var tok := NextToken(t).value; var rest := Lex(t[|tok.spelling|..]);
      rest.Some? && Lex(t).value == [tok] + rest.value
  {
    hide NextToken;
  }

  /** A token that reads back as itself. */
  predicate WfToken(tok: Token) {
    tok.spelling != [] && !Space(tok.spelling[0]) && NextToken(tok.spelling) == Some(tok)
  }

  predicate WfTokens(ts: seq<Token>) { forall i :: 0 <= i < |ts| ==> WfToken(ts[i]) }

  /** No number is directly followed by a number, so their digits cannot run together. */
  predicate Separated(ts: seq<Token>) {
    forall i :: 0 <= i < |ts| - 1 ==> !(ts[i].sym.Number? && ts[i + 1].sym.Number?)
  }

  function Render(ts: seq<Token>): Bytes
  {
    if ts == [] then [] else ts[0].spelling + Render(ts[1..])
  }

  lemma {:induction false} RenderConcat(a: seq<Token>, b: seq<Token>)
    ensures Render(a + b) == Render(a) + Render(b)
  {
    if a == [] {
      assert a + b == b;
    } else {
      RenderConcat(a[1..], b);
      assert (a + b)[1..] == a[1..] + b;
      Assoc(a[0].spelling, Render(a[1..]), Render(b));
    }
  }

  /** A token read from t also reads back from its spelling alone. */
  lemma NextTokenWf(t: Bytes)
    requires t != [] && !Space(t[0]) && NextToken(t).Some?
    ensures WfToken(NextToken(t).value)
  {
    var s := NextToken(t).value.spelling;
    assert s[0] == t[0];
    if Punctuation(t[0]).None? {
      if Keyword(t).Some? {
        KeywordLocal(s, t[|s|..]);
        assert t == s + t[|s|..];
      } else if t[0] == '"' {
        StringTokenCut(t);
      } else {
        assert s[..|s|] == s;
        KeywordLocal(s, t[|s|..]);
        assert t == s + t[|s|..];
      }
    }
  }

  lemma KeywordLocal(s: Bytes, rest: Bytes)
    ensures Keyword(s).Some? ==> Keyword(s + rest) == Keyword(s)
    ensures Keyword(s + rest).Some? && Keyword(s + rest).value.spelling == s ==> Keyword(s) == Keyword(s + rest)
  {
    assert forall i :: 0 <= i < |s| ==> (s + rest)[i] == s[i];
  }

  lemma StringTokenCut(t: Bytes)
    requires t != [] && t[0] == '"' && StringToken(t).Some?
    ensures StringToken(StringToken(t).value.spelling) == StringToken(t)
  {
    var s := StringToken(t).value.spelling;
    var n := LexBody(t[1..]).value.n;
    LexBodyCut(t[1..]);
    assert s[1..] == t[1..][..n + 1];
    assert s[..n + 2] == s;
  }

  lemma StringTokenLocal(s: Bytes, rest: Bytes)
    requires s != [] && s[0] == '"' && StringToken(s).Some? && StringToken(s).value.spelling == s
    ensures StringToken(s + rest) == StringToken(s)
  {
    var n := LexBody(s[1..]).value.n;
    assert |s[..n + 2]| == n + 2;
    LexBodyLocal(s[1..], rest);
    assert (s + rest)[1..] == s[1..] + rest;
    assert (s + rest)[..n + 2] == s;
  }

  lemma NumberTokenLocal(s: Bytes, rest: Bytes)
    requires NumberToken(s).Some? && NumberToken(s).value.spelling == s
    requires rest == [] || !NumberByte(rest[0])
    ensures NumberToken(s + rest) == NumberToken(s)
  {
    assert |s[..NumberRun(s)]| == NumberRun(s);
    NumberRunStops(s, rest);
    assert (s + rest)[..|s|] == s[..|s|] == s;
  }

  /** Reading a string stops at its closing quote. */
  lemma {:induction false} LexBodyCut(t: Bytes)
    requires LexBody(t).Some?
    ensures LexBody(t[..LexBody(t).value.n + 1]) == LexBody(t)
    decreases |t|
  {
    hide BodyStep, LexBody;
    var m := LexBody(t).value.n + 1;
    LexBodyUnfold(t);
    LexBodyUnfold(t[..m]);
    Split(t, m);
    BodyStepLocal(t[..m], t[m..]);
    if BodyStep(t).Piece? {
      var n := BodyStep(t).n;
      LexBodyCut(t[n..]);
      DropTakeWithin(t, n, m);
    }
  }

  lemma DropTakeWithin(t: Bytes, n: nat, m: nat)
    requires n <= m <= |t|
    ensures t[..m][n..] == t[n..][..m - n]
  {
  }

  /** A well-formed token is read whole from the front of any text that does not
      continue a number. */
  lemma NextTokenLocal(tok: Token, rest: Bytes)
    requires WfToken(tok)
    requires tok.sym.Number? ==> rest == [] || !NumberByte(rest[0])
    ensures NextToken(tok.spelling + rest) == Some(tok)
  {
    var s := tok.spelling;
    assert (s + rest)[0] == s[0];
    if Punctuation(s[0]).None? {
      KeywordLocal(s, rest);
      if Keyword(s).None? {
        if s[0] == '"' {
          StringTokenLocal(s, rest);
        } else {
          NumberTokenLocal(s, rest);
          assert NumberByte(s[0]);
        }
      }
    }
  }

  /** Rendering tokens and reading the text back gives the same tokens. */
  lemma {:induction false} LexRender(ts: seq<Token>)
    requires WfTokens(ts) && Separated(ts)
    ensures Lex(Render(ts)) == Some(ts)
  {
    if ts != [] {
      var tok, rest := ts[0], ts[1..];
      LexRender(rest);
      if rest != [] {
        assert WfToken(rest[0]);
        assert Render(rest)[0] == rest[0].spelling[0];
        if tok.sym.Number? {
          StartsNoNumber(rest[0]);
        }
      }
      NextTokenLocal(tok, Render(rest));
      assert Render(ts)[|tok.spelling|..] == Render(rest);
      assert ts == [tok] + rest;
    }
  }

  lemma StartsNoNumber(tok: Token)
    requires WfToken(tok) && !tok.sym.Number?
    ensures !NumberByte(tok.spelling[0])
  {
  }

  lemma {:induction false} LexWf(t: Bytes)
    requires Lex(t).Some?
    ensures WfTokens(Lex(t).value)
  {
    if t != [] {
      if Space(t[0]) {
        LexWf(t[1..]);
      } else {
        NextTokenWf(t);
        LexWf(t[|NextToken(t).value.spelling|..]);
      }
    }
  }
}
