/** The linear nesting scanner boundedJSONDepth (genai/payload_policy.go) and its
    agreement with the nesting depth of the value that a text holds. */
module JsonDepth {
  import opened Bytes
  import opened Utf8
  import opened JsonText
  import opened JsonTree

  const MAX_DEPTH: int := 32

  /** Nesting of arrays and objects; a scalar has none. */
  function Depth(v: Json): nat
  {
    match v
    case JArr(items) => 1 + DepthItems(items)
    case JObj(members) => 1 + DepthMembers(members)
    case _ => 0
  }

  function Max(a: nat, b: nat): nat { if a < b then b else a }

  function DepthItems(items: seq<Json>): nat
  {
    if items == [] then 0 else Max(Depth(items[0]), DepthItems(items[1..]))
  }

  function DepthMembers(ms: seq<Member>): nat
  {
    if ms == [] then 0 else Max(Depth(ms[0].value), DepthMembers(ms[1..]))
  }

  predicate Opens(c: byte) { c == '{' || c == '[' }
  predicate Closes(c: byte) { c == '}' || c == ']' }

  /** The scanner's verdict on the bytes still to come. */
  predicate Scan(t: Bytes, depth: int, inString: bool, escaped: bool)
    decreases |t|
  {
    if t == [] then true
    else if inString then
      if escaped then Scan(t[1..], depth, true, false)
      else if t[0] == '\\' then Scan(t[1..], depth, true, true)
      else Scan(t[1..], depth, t[0] != '"', false)
    else if t[0] == '"' then Scan(t[1..], depth, true, false)
    else if Opens(t[0]) then depth + 1 <= MAX_DEPTH && Scan(t[1..], depth + 1, false, false)
    else if Closes(t[0]) then Scan(t[1..], depth - 1, false, false)
    else Scan(t[1..], depth, false, false)
  }

  /** Bytes of a multi-byte character are never quotes, escapes or brackets. */
  lemma {:induction false} ScanSkips(t: Bytes, n: nat, depth: int, inString: bool)
    requires n <= |t| && forall i :: 0 <= i < n ==> t[i] as int >= 0x80
    ensures Scan(t, depth, inString, false) == Scan(t[n..], depth, inString, false)
  {
    if n > 0 {
      ScanSkips(t[1..], n - 1, depth, inString);
      assert t[1..][n - 1..] == t[n..];
    }
  }

  /** Go ranges over characters: a malformed byte counts as one character. */
  function CharWidth(t: Bytes): (n: nat)
    requires t != []
    ensures 0 < n <= |t|
    ensures n > 1 ==> forall i :: 0 <= i < n ==> t[i] as int >= 0x80
  {
    if Width(t) == 0 then 1 else Width(t)
  }

  lemma ScanChar(t: Bytes, depth: int, inString: bool, escaped: bool)
    requires t != [] && CharWidth(t) > 1
    ensures Scan(t, depth, inString, escaped) == Scan(t[CharWidth(t)..], depth, inString, false)
  {
    var n := CharWidth(t);
    if inString && escaped {
      ScanSkips(t[1..], n - 1, depth, true);
      assert t[1..][n - 1..] == t[n..];
    } else {
      ScanSkips(t, n, depth, inString);
    }
  }

  method BoundedJSONDepth(raw: Bytes) returns (ok: bool)
    ensures ok == Scan(raw, 0, false, false)
  {
    var depth := 0;
    var inString, escaped := false, false;
    var i := 0;
    while i < |raw|
      invariant 0 <= i <= |raw|
      invariant escaped ==> inString
      invariant Scan(raw, 0, false, false) == Scan(raw[i..], depth, inString, escaped)
    {
      var n := CharWidth(raw[i..]);
      var c := raw[i];
      var single := n == 1;
      assert raw[i..][1..] == raw[i + 1..];
      assert raw[i..][n..] == raw[i + n..];
      if !single {
        ScanChar(raw[i..], depth, inString, escaped);
      }
      i := i + n;
      if inString {
        if escaped {
          escaped := false;
          continue;
        }
        if single && c == '\\' {
          escaped := true;
          continue;
        }
        if single && c == '"' {
          inString := false;
        }
        continue;
      }
      if single && c == '"' {
        inString := true;
      } else if single && Opens(c) {
        depth := depth + 1;
        if depth > MAX_DEPTH {
          return false;
        }
      } else if single && Closes(c) {
        depth := depth - 1;
      }
    }
    return true;
  }

  // ----- the scanner over tokens

  /** The scanner's verdict on the tokens still to come. */
  predicate ScanSyms(ss: seq<Sym>, depth: int) {
    if ss == [] then true
    else if ss[0] == LBrace || ss[0] == LBracket then depth + 1 <= MAX_DEPTH && ScanSyms(ss[1..], depth + 1)
    else if ss[0] == RBrace || ss[0] == RBracket then ScanSyms(ss[1..], depth - 1)
    else ScanSyms(ss[1..], depth)
  }

  predicate Plain(c: byte) { c != '"' && !Opens(c) && !Closes(c) }

  lemma {:induction false} ScanPlain(s: Bytes, rest: Bytes, depth: int)
    requires forall i :: 0 <= i < |s| ==> Plain(s[i])
    ensures Scan(s + rest, depth, false, false) == Scan(rest, depth, false, false)
  {
    if s == [] {
      assert s + rest == rest;
    } else {
      assert (s + rest)[1..] == s[1..] + rest;
      ScanPlain(s[1..], rest, depth);
    }
  }

  lemma ScanEscape(t: Bytes, depth: int)
    requires |t| >= 2 && t[0] == '\\'
    ensures Scan(t, depth, true, false) == Scan(t[2..], depth, true, false)
  {
    assert t[1..][1..] == t[2..];
    assert Scan(t[1..], depth, true, true) == Scan(t[1..][1..], depth, true, false);
  }

  lemma {:induction false} ScanHex(t: Bytes, n: nat, depth: int)
    requires n <= |t| && forall i :: 0 <= i < n ==> IsHex(t[i])
    ensures Scan(t, depth, true, false) == Scan(t[n..], depth, true, false)
  {
    if n > 0 {
      ScanHex(t[1..], n - 1, depth);
      assert t[1..][n - 1..] == t[n..];
    }
  }

  lemma ScanUnit(t: Bytes, depth: int)
    requires Unit(t).Some?
    ensures Scan(t, depth, true, false) == Scan(t[6..], depth, true, false)
  {
    ScanEscape(t, depth);
    assert forall i :: 0 <= i < 4 ==> t[2..][i] == t[i + 2];
    ScanHex(t[2..], 4, depth);
    assert t[2..][4..] == t[6..];
  }

  /** One character of a string body leaves the scanner inside the string. */
  lemma ScanPiece(t: Bytes, depth: int)
    requires BodyStep(t).Piece?
    ensures Scan(t, depth, true, false) == Scan(t[BodyStep(t).n..], depth, true, false)
  {
    var n := BodyStep(t).n;
    if t[0] == '\\' {
      if n == 2 {
        ScanEscape(t, depth);
      } else {
        ScanUnit(t, depth);
        if n == 12 {
          ScanUnit(t[6..], depth);
          assert t[6..][6..] == t[12..];
        }
      }
    } else if n > 1 {
      ScanSkips(t, n, depth, true);
    }
  }

  lemma {:induction false} ScanBody(t: Bytes, depth: int)
    requires LexBody(t).Some?
    ensures Scan(t, depth, true, false) == Scan(t[LexBody(t).value.n + 1..], depth, false, false)
  {
    if BodyStep(t).Piece? {
      var n := BodyStep(t).n;
      ScanPiece(t, depth);
      ScanBody(t[n..], depth);
      assert t[n..][LexBody(t[n..]).value.n + 1..] == t[LexBody(t).value.n + 1..];
    }
  }

  /** The scanner's verdict after one token. */
  predicate ScanAfter(sym: Sym, rest: Bytes, depth: int) {
    if sym == LBrace || sym == LBracket then depth + 1 <= MAX_DEPTH && Scan(rest, depth + 1, false, false)
    else if sym == RBrace || sym == RBracket then Scan(rest, depth - 1, false, false)
    else Scan(rest, depth, false, false)
  }

  lemma ScanString(t: Bytes, depth: int)
    requires t != [] && t[0] == '"' && StringToken(t).Some?
    ensures Scan(t, depth, false, false) == Scan(t[|StringToken(t).value.spelling|..], depth, false, false)
  {
    hide LexBody;
    var n := LexBody(t[1..]).value.n;
    ScanBody(t[1..], depth);
    DropDrop(t, 1, n + 1);
  }

  lemma ScanWord(t: Bytes, tok: Token, depth: int)
    requires t != [] && (Keyword(t) == Some(tok) || NumberToken(t) == Some(tok))
    ensures Scan(t, depth, false, false) == Scan(t[|tok.spelling|..], depth, false, false)
  {
    hide Scan, ValidNumber;
    var s := tok.spelling;
    assert t == s + t[|s|..];
    ScanPlain(s, t[|s|..], depth);
  }

  /** What the scanner does over one token of a text. */
  lemma ScanToken(t: Bytes, depth: int)
    requires t != [] && NextToken(t).Some?
    ensures var tok := NextToken(t).value;
      Scan(t, depth, false, false) == ScanAfter(tok.sym, t[|tok.spelling|..], depth)
  {
    hide Keyword, StringToken, NumberToken;
    var tok := NextToken(t).value;
    if Punctuation(t[0]).None? {
      TokenKind(t);
      if tok.sym.Str? {
        ScanString(t, depth);
      } else {
        ScanWord(t, tok, depth);
      }
    }
  }

  lemma TokenKind(t: Bytes)
    requires t != [] && NextToken(t).Some? && Punctuation(t[0]).None?
    ensures var tok := NextToken(t).value;
      && tok.sym !in {LBrace, RBrace, LBracket, RBracket}
      && (tok.sym.Str? ==> t[0] == '"' && StringToken(t) == Some(tok))
      && (!tok.sym.Str? ==> Keyword(t) == Some(tok) || NumberToken(t) == Some(tok))
  {
    hide LexBody, NumberRun, ValidNumber;
    if t[0] == '"' {
      StringIsNext(t);
    }
  }

  lemma SymsHead(tok: Token, ts: seq<Token>)
    ensures Syms([tok] + ts) == [tok.sym] + Syms(ts) && Syms([tok] + ts)[1..] == Syms(ts)
  {
    hide Syms;
    DropTake([tok.sym], Syms(ts));
  }

  lemma {:induction false} ScanLex(t: Bytes, depth: int)
    requires Lex(t).Some?
    ensures Scan(t, depth, false, false) == ScanSyms(Syms(Lex(t).value), depth)
    decreases |t|
  {
    hide NextToken;
    if t != [] {
      if Space(t[0]) {
        ScanLex(t[1..], depth);
      } else {
        LexHead(t);
        var tok := NextToken(t).value;
        var rest := t[|tok.spelling|..];
        ScanToken(t, depth);
        ScanLex(rest, depth);
        ScanLex(rest, depth + 1);
        ScanLex(rest, depth - 1);
        SymsHead(tok, Lex(rest).value);
      }
    }
  }

  lemma ScanHead(sym: Sym, rest: seq<Sym>, depth: int)
    ensures ScanSyms([sym] + rest, depth) ==
      if sym == LBrace || sym == LBracket then depth + 1 <= MAX_DEPTH && ScanSyms(rest, depth + 1)
      else if sym == RBrace || sym == RBracket then ScanSyms(rest, depth - 1)
      else ScanSyms(rest, depth)
  {
    DropTake([sym], rest);
  }

  /** The tokens of a value pass exactly when its depth still fits. */
  lemma {:induction false} ScanValue(v: Json, rest: seq<Sym>, depth: int)
    requires NoRaw(v) && depth <= MAX_DEPTH
    ensures ScanSyms(SymsOf(v) + rest, depth) == (depth + Depth(v) <= MAX_DEPTH && ScanSyms(rest, depth))
    decreases v, 1
  {
    hide ScanSyms, SymsOfItems, SymsOfMembers;
    match v {
      case JArr(items) =>
        var body := if items != [] then SymsOfItems(items) else [RBracket];
        ScanHead(LBracket, body + rest, depth);
        Assoc([LBracket], body, rest);
        if items == [] {
          ScanHead(RBracket, rest, depth + 1);
        } else if depth < MAX_DEPTH {
          ScanItems(items, rest, depth + 1);
        }
      case JObj(members) =>
        var body := if members != [] then SymsOfMembers(members) else [RBrace];
        ScanHead(LBrace, body + rest, depth);
        Assoc([LBrace], body, rest);
        if members == [] {
          ScanHead(RBrace, rest, depth + 1);
        } else if depth < MAX_DEPTH {
          ScanMembers(members, rest, depth + 1);
        }
      case JRaw(_) =>
      case _ => ScanHead(SymsOf(v)[0], rest, depth);
    }
  }

  lemma {:induction false} ScanItems(items: seq<Json>, rest: seq<Sym>, depth: int)
    requires items != [] && NoRawItems(items) && depth <= MAX_DEPTH
    ensures ScanSyms(SymsOfItems(items) + rest, depth)
         == (depth + DepthItems(items) <= MAX_DEPTH && ScanSyms(rest, depth - 1))
    decreases items, 0
  {
    hide ScanSyms, SymsOf, SymsOfItems, NoRaw, Depth;
    var v := items[0];
    if |items| > 1 {
      var more := SymsOfItems(items[1..]) + rest;
      ScanItems(items[1..], rest, depth);
      ScanHead(Comma, more, depth);
      ScanValue(v, [Comma] + more, depth);
      SymsOfItemsCons(v, items[1..], rest);
      assert items == [v] + items[1..];
    } else {
      ScanHead(RBracket, rest, depth);
      ScanValue(v, [RBracket] + rest, depth);
      SymsOfItemsLast(v, rest);
      assert items == [v];
    }
  }

  lemma {:induction false} ScanMembers(ms: seq<Member>, rest: seq<Sym>, depth: int)
    requires ms != [] && NoRawMembers(ms) && depth <= MAX_DEPTH
    ensures ScanSyms(SymsOfMembers(ms) + rest, depth)
         == (depth + DepthMembers(ms) <= MAX_DEPTH && ScanSyms(rest, depth - 1))
    decreases ms, 0
  {
    hide ScanSyms, SymsOf, SymsOfMembers, NoRaw, Depth;
    var m := ms[0];
    if |ms| > 1 {
      var more := SymsOfMembers(ms[1..]) + rest;
      ScanMembers(ms[1..], rest, depth);
      ScanHead(Comma, more, depth);
      ScanValue(m.value, [Comma] + more, depth);
      ScanKey(m.key, SymsOf(m.value) + ([Comma] + more), depth);
      SymsOfMembersCons(m, ms[1..], rest);
      assert ms == [m] + ms[1..];
    } else {
      ScanHead(RBrace, rest, depth);
      ScanValue(m.value, [RBrace] + rest, depth);
      ScanKey(m.key, SymsOf(m.value) + ([RBrace] + rest), depth);
      SymsOfMembersLast(m, rest);
      assert ms == [m];
    }
  }

  lemma ScanKey(key: Bytes, after: seq<Sym>, depth: int)
    ensures ScanSyms([Str(key), Colon] + after, depth) == ScanSyms(after, depth)
  {
    var ss := [Str(key), Colon] + after;
    assert ss[1..][0] == Colon && ss[1..][1..] == after;
    assert ScanSyms(ss[1..], depth) == ScanSyms(ss[1..][1..], depth);
  }

  /** On every JSON text the character scanner decides the nesting depth of the value,
      whatever quotes, escapes and brackets its strings hold. */
  lemma ScannerDecidesDepth(t: Bytes)
    requires Parse(t).Some?
    ensures Scan(t, 0, false, false) <==> Depth(Parse(t).value) <= MAX_DEPTH
  {
    var ss := Syms(Lex(t).value);
    ScanLex(t, 0);
    SymsOfParse(ss);
    var v := Parse(t).value;
    assert ss == SymsOf(v) + [];
    ScanValue(v, [], 0);
  }
}
