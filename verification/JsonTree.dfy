/** The grammar of JSON (RFC 8259, sections 2 to 5) over tokens, and json.Marshal. */
module JsonTree {
  import opened Bytes
  import opened Utf8
  import opened JsonText
  import opened JsonStrings

  /** A value given to json.Marshal or read from text. Numbers keep their lexeme;
      object members keep their order and may repeat a key. JRaw is a json.RawMessage,
      present only in values to be written. */
  datatype Json =
    | JNull
    | JBool(b: bool)
    | JNum(lexeme: Bytes)
    | JStr(s: Bytes)
    | JArr(items: seq<Json>)
    | JObj(members: seq<Member>)
    | JRaw(text: Bytes)

  datatype Member = Member(key: Bytes, value: Json)

  // ----- reading

  function ParseValue(ts: seq<Sym>): (p: Option<(Json, seq<Sym>)>)
    ensures p.Some? ==> |p.value.1| < |ts|
    decreases |ts|, 0
  {
    if ts == [] then None
    else
      match ts[0]
      case Null => Some((JNull, ts[1..]))
      case True => Some((JBool(true), ts[1..]))
      case False => Some((JBool(false), ts[1..]))
      case Number(lexeme) => Some((JNum(lexeme), ts[1..]))
      case Str(text) => Some((JStr(text), ts[1..]))
      case LBracket =>
        if |ts| > 1 && ts[1] == RBracket then Some((JArr([]), ts[2..]))
        else
          (match ParseItems(ts[1..])
           case None => None
           case Some(p) => Some((JArr(p.0), p.1)))
      case LBrace =>
        if |ts| > 1 && ts[1] == RBrace then Some((JObj([]), ts[2..]))
        else
          (match ParseMembers(ts[1..])
           case None => None
           case Some(p) => Some((JObj(p.0), p.1)))
      case _ => None
  }

  /** Comma-separated values up to and including the closing bracket. */
  function ParseItems(ts: seq<Sym>): (p: Option<(seq<Json>, seq<Sym>)>)
    ensures p.Some? ==> |p.value.1| < |ts| && p.value.0 != []
    decreases |ts|, 1
  {
    match ParseValue(ts)
    case None => None
    case Some(p) =>
      if p.1 == [] then None
      else if p.1[0] == RBracket then Some(([p.0], p.1[1..]))
      else if p.1[0] == Comma then
        (match ParseItems(p.1[1..])
         case None => None
         case Some(q) => Some(([p.0] + q.0, q.1)))
      else None
  }

  function ParseMembers(ts: seq<Sym>): (p: Option<(seq<Member>, seq<Sym>)>)
    ensures p.Some? ==> |p.value.1| < |ts| && p.value.0 != []
    decreases |ts|, 1
  {
    if |ts| < 2 || !ts[0].Str? || ts[1] != Colon then None
    else
      match ParseValue(ts[2..])
      case None => None
      case Some(p) =>
        var m := Member(ts[0].text, p.0);
        if p.1 == [] then None
        else if p.1[0] == RBrace then Some(([m], p.1[1..]))
        else if p.1[0] == Comma then
          (match ParseMembers(p.1[1..])
           case None => None
           case Some(q) => Some(([m] + q.0, q.1)))
        else None
  }

  function Syms(ts: seq<Token>): (r: seq<Sym>)
    ensures |r| == |ts| && forall i :: 0 <= i < |r| ==> r[i] == ts[i].sym
  {
    seq(|ts|, i requires 0 <= i < |ts| => ts[i].sym)
  }

  /** The one value a text holds, between optional white space. */
  function Parse(t: Bytes): Option<Json>
  {
    match Lex(t)
    case None => None
    case Some(ts) =>
      match ParseValue(Syms(ts))
      case None => None
      case Some(p) => if p.1 == [] then Some(p.0) else None
  }

  // ----- the token sequence of a value

  /** The value holds no raw text. */
  predicate NoRaw(v: Json) {
    match v
    case JArr(items) => NoRawItems(items)
    case JObj(members) => NoRawMembers(members)
    case JRaw(_) => false
    case _ => true
  }

  predicate NoRawItems(items: seq<Json>) {
    items == [] || (NoRaw(items[0]) && NoRawItems(items[1..]))
  }

  predicate NoRawMembers(ms: seq<Member>) {
    ms == [] || (NoRaw(ms[0].value) && NoRawMembers(ms[1..]))
  }

  function SymsOf(v: Json): (r: seq<Sym>)
    requires NoRaw(v)
    ensures r != []
  {
    match v
    case JNull => [Null]
    case JBool(b) => [if b then True else False]
    case JNum(lexeme) => [Number(lexeme)]
    case JStr(s) => [Str(s)]
    case JArr(items) => [LBracket] + if items == [] then [RBracket] else SymsOfItems(items)
    case JObj(members) => [LBrace] + if members == [] then [RBrace] else SymsOfMembers(members)
  }

  function SymsOfItems(items: seq<Json>): (r: seq<Sym>)
    requires items != [] && NoRawItems(items)
    ensures r != []
  {
    SymsOf(items[0]) + if |items| == 1 then [RBracket] else [Comma] + SymsOfItems(items[1..])
  }

  function SymsOfMembers(ms: seq<Member>): (r: seq<Sym>)
    requires ms != [] && NoRawMembers(ms)
    ensures r != []
  {
    [Str(ms[0].key), Colon] + SymsOf(ms[0].value)
    + if |ms| == 1 then [RBrace] else [Comma] + SymsOfMembers(ms[1..])
  }

  lemma FirstSym(v: Json)
    requires NoRaw(v)
    ensures SymsOf(v)[0] != RBracket && SymsOf(v)[0] != RBrace
  {
  }

  lemma ParseScalar(v: Json, rest: seq<Sym>)
    requires NoRaw(v) && !(v.JArr? && v.items != []) && !(v.JObj? && v.members != [])
    ensures ParseValue(SymsOf(v) + rest) == Some((v, rest))
  {
    hide ParseItems, ParseMembers, SymsOfItems, SymsOfMembers;
    DropTake(SymsOf(v), rest);
    assert (SymsOf(v) + rest)[0] == SymsOf(v)[0];
    assert |SymsOf(v)| > 1 ==> (SymsOf(v) + rest)[1] == SymsOf(v)[1];
  }

  lemma ParseArray(items: seq<Json>, rest: seq<Sym>)
    requires items != [] && NoRawItems(items) && ParseItems(SymsOfItems(items) + rest) == Some((items, rest))
    ensures ParseValue(SymsOf(JArr(items)) + rest) == Some((JArr(items), rest))
  {
    hide ParseItems, ParseMembers, NoRaw, SymsOfMembers;
    FirstSym(items[0]);
    ArrayTokens(SymsOfItems(items), rest);
  }

  lemma ParseObject(ms: seq<Member>, rest: seq<Sym>)
    requires ms != [] && NoRawMembers(ms) && ParseMembers(SymsOfMembers(ms) + rest) == Some((ms, rest))
    ensures ParseValue(SymsOf(JObj(ms)) + rest) == Some((JObj(ms), rest))
  {
    hide ParseItems, ParseMembers, NoRaw, SymsOfItems;
    ObjectTokens(SymsOfMembers(ms), rest);
  }

  lemma ArrayTokens(body: seq<Sym>, rest: seq<Sym>)
    requires body != [] && body[0] != RBracket && ParseItems(body + rest).Some?
    ensures var p := ParseItems(body + rest).value;
      ParseValue([LBracket] + body + rest) == Some((JArr(p.0), p.1))
  {
    hide ParseItems, ParseMembers;
    assert ([LBracket] + body + rest)[1..] == body + rest;
  }

  lemma ObjectTokens(body: seq<Sym>, rest: seq<Sym>)
    requires body != [] && body[0] != RBrace && ParseMembers(body + rest).Some?
    ensures var p := ParseMembers(body + rest).value;
      ParseValue([LBrace] + body + rest) == Some((JObj(p.0), p.1))
  {
    hide ParseItems, ParseMembers;
    assert ([LBrace] + body + rest)[1..] == body + rest;
  }

  /** Reading recovers a value from its tokens, whatever follows. */
  lemma {:induction false} ParseOfSyms(v: Json, rest: seq<Sym>)
    requires NoRaw(v)
    ensures ParseValue(SymsOf(v) + rest) == Some((v, rest))
    decreases v, 1
  {
    hide ParseValue, ParseItems, ParseMembers, SymsOf, SymsOfItems, SymsOfMembers;
    if v.JArr? && v.items != [] {
      ParseOfItems(v.items, rest);
      ParseArray(v.items, rest);
    } else if v.JObj? && v.members != [] {
      ParseOfMembers(v.members, rest);
      ParseObject(v.members, rest);
    } else {
      ParseScalar(v, rest);
    }
  }

  lemma {:induction false} ParseOfItems(items: seq<Json>, rest: seq<Sym>)
    requires items != [] && NoRawItems(items)
    ensures ParseItems(SymsOfItems(items) + rest) == Some((items, rest))
    decreases items, 0
  {
    hide ParseValue, ParseItems, SymsOf, SymsOfItems, NoRaw;
    var v := items[0];
    if |items| > 1 {
      var more := SymsOfItems(items[1..]) + rest;
      ParseOfItems(items[1..], rest);
      ParseOfSyms(v, [Comma] + more);
      MoreItems(v, more);
      SymsOfItemsCons(v, items[1..], rest);
      assert items == [v] + items[1..];
    } else {
      ParseOfSyms(v, [RBracket] + rest);
      LastItem(v, rest);
      SymsOfItemsLast(v, rest);
      assert items == [v];
    }
  }

  lemma LastItem(v: Json, rest: seq<Sym>)
    requires NoRaw(v) && ParseValue(SymsOf(v) + ([RBracket] + rest)) == Some((v, [RBracket] + rest))
    ensures ParseItems(SymsOf(v) + ([RBracket] + rest)) == Some(([v], rest))
  {
    hide ParseValue, SymsOf;
    DropTake([RBracket], rest);
  }

  lemma MoreItems(v: Json, more: seq<Sym>)
    requires NoRaw(v) && ParseValue(SymsOf(v) + ([Comma] + more)) == Some((v, [Comma] + more))
    requires ParseItems(more).Some?
    ensures ParseItems(SymsOf(v) + ([Comma] + more)) == Some(([v] + ParseItems(more).value.0, ParseItems(more).value.1))
  {
    hide ParseValue, SymsOf;
    DropTake([Comma], more);
  }

  lemma SymsOfItemsLast(v: Json, rest: seq<Sym>)
    requires NoRaw(v)
    ensures NoRawItems([v]) && SymsOf(v) + ([RBracket] + rest) == SymsOfItems([v]) + rest
  {
    hide SymsOf;
    assert [v][1..] == [];
    Assoc(SymsOf(v), [RBracket], rest);
  }

  lemma SymsOfItemsCons(v: Json, items: seq<Json>, rest: seq<Sym>)
    requires NoRaw(v) && items != [] && NoRawItems(items)
    ensures NoRawItems([v] + items)
    ensures SymsOf(v) + ([Comma] + (SymsOfItems(items) + rest)) == SymsOfItems([v] + items) + rest
  {
    hide SymsOf;
    assert ([v] + items)[1..] == items;
    Assoc([Comma], SymsOfItems(items), rest);
    Assoc(SymsOf(v), [Comma] + SymsOfItems(items), rest);
  }

  lemma {:induction false} ParseOfMembers(ms: seq<Member>, rest: seq<Sym>)
    requires ms != [] && NoRawMembers(ms)
    ensures ParseMembers(SymsOfMembers(ms) + rest) == Some((ms, rest))
    decreases ms, 0
  {
    hide ParseValue, ParseMembers, SymsOf, SymsOfMembers, NoRaw;
    var m := ms[0];
    if |ms| > 1 {
      var more := SymsOfMembers(ms[1..]) + rest;
      ParseOfMembers(ms[1..], rest);
      ParseOfSyms(m.value, [Comma] + more);
      MoreMembers(m, more);
      SymsOfMembersCons(m, ms[1..], rest);
      assert ms == [m] + ms[1..];
    } else {
      ParseOfSyms(m.value, [RBrace] + rest);
      LastMember(m, rest);
      SymsOfMembersLast(m, rest);
      assert ms == [m];
    }
  }

  lemma LastMember(m: Member, rest: seq<Sym>)
    requires NoRaw(m.value) && ParseValue(SymsOf(m.value) + ([RBrace] + rest)) == Some((m.value, [RBrace] + rest))
    ensures ParseMembers([Str(m.key), Colon] + (SymsOf(m.value) + ([RBrace] + rest))) == Some(([m], rest))
  {
    hide ParseValue, SymsOf;
    var ts := [Str(m.key), Colon] + (SymsOf(m.value) + ([RBrace] + rest));
    assert ts[2..] == SymsOf(m.value) + ([RBrace] + rest);
    assert ([RBrace] + rest)[1..] == rest;
  }

  lemma MoreMembers(m: Member, more: seq<Sym>)
    requires NoRaw(m.value) && ParseValue(SymsOf(m.value) + ([Comma] + more)) == Some((m.value, [Comma] + more))
    requires ParseMembers(more).Some?
    ensures ParseMembers([Str(m.key), Colon] + (SymsOf(m.value) + ([Comma] + more)))
         == Some(([m] + ParseMembers(more).value.0, ParseMembers(more).value.1))
  {
    hide ParseValue, SymsOf;
    var ts := [Str(m.key), Colon] + (SymsOf(m.value) + ([Comma] + more));
    assert ts[2..] == SymsOf(m.value) + ([Comma] + more);
    assert ([Comma] + more)[1..] == more;
  }

  /** Reading consumes exactly the tokens of the value it returns. */
  lemma {:induction false} SymsOfParse(ts: seq<Sym>)
    requires ParseValue(ts).Some?
    ensures var (v, rest) := ParseValue(ts).value;
      NoRaw(v) && ts == SymsOf(v) + rest
    decreases |ts|, 0
  {
    match ts[0] {
      case LBracket =>
        if !(|ts| > 1 && ts[1] == RBracket) {
          SymsOfParseItems(ts[1..]);
        }
      case LBrace =>
        if !(|ts| > 1 && ts[1] == RBrace) {
          SymsOfParseMembers(ts[1..]);
        }
      case _ =>
    }
  }

  lemma {:induction false} SymsOfParseItems(ts: seq<Sym>)
    requires ParseItems(ts).Some?
    ensures var (items, rest) := ParseItems(ts).value;
      NoRawItems(items) && ts == SymsOfItems(items) + rest
    decreases |ts|, 1
  {
    SymsOfParse(ts);
    var (v, after) := ParseValue(ts).value;
    if after[0] == Comma {
      SymsOfParseItems(after[1..]);
      var (items, rest) := ParseItems(after[1..]).value;
      SymsOfItemsCons(v, items, rest);
      assert after == [Comma] + after[1..];
    } else {
      SymsOfItemsLast(v, after[1..]);
      assert after == [RBracket] + after[1..];
    }
  }

  lemma {:induction false} SymsOfParseMembers(ts: seq<Sym>)
    requires ParseMembers(ts).Some?
    ensures var (ms, rest) := ParseMembers(ts).value;
      NoRawMembers(ms) && ts == SymsOfMembers(ms) + rest
    decreases |ts|, 1
  {
    SymsOfParse(ts[2..]);
    var (v, after) := ParseValue(ts[2..]).value;
    var m := Member(ts[0].text, v);
    assert ts == [Str(m.key), Colon] + ts[2..];
    if after[0] == Comma {
      SymsOfParseMembers(after[1..]);
      var (ms, rest) := ParseMembers(after[1..]).value;
      SymsOfMembersCons(m, ms, rest);
      assert after == [Comma] + after[1..];
    } else {
      SymsOfMembersLast(m, after[1..]);
      assert after == [RBrace] + after[1..];
    }
  }

  lemma SymsOfMembersLast(m: Member, rest: seq<Sym>)
    requires NoRaw(m.value)
    ensures NoRawMembers([m])
    ensures [Str(m.key), Colon] + (SymsOf(m.value) + ([RBrace] + rest)) == SymsOfMembers([m]) + rest
  {
    assert [m][1..] == [];
  }

  lemma SymsOfMembersCons(m: Member, ms: seq<Member>, rest: seq<Sym>)
    requires NoRaw(m.value) && ms != [] && NoRawMembers(ms)
    ensures NoRawMembers([m] + ms)
    ensures [Str(m.key), Colon] + (SymsOf(m.value) + ([Comma] + (SymsOfMembers(ms) + rest))) ==
      SymsOfMembers([m] + ms) + rest
  {
    assert ([m] + ms)[1..] == ms;
  }

  /** No two numbers are adjacent. */
  predicate SymsSeparated(ss: seq<Sym>) {
    forall i :: 0 <= i < |ss| - 1 ==> !(ss[i].Number? && ss[i + 1].Number?)
  }

  lemma SeparatedConcat(a: seq<Sym>, b: seq<Sym>)
    requires SymsSeparated(a) && SymsSeparated(b)
    requires a != [] && b != [] ==> !(a[|a| - 1].Number? && b[0].Number?)
    ensures SymsSeparated(a + b)
  {
    forall i | 0 <= i < |a + b| - 1
      ensures !((a + b)[i].Number? && (a + b)[i + 1].Number?)
    {
      if i < |a| - 1 {
        assert !(a[i].Number? && a[i + 1].Number?);
      } else if i >= |a| {
        assert !(b[i - |a|].Number? && b[i - |a| + 1].Number?);
      }
    }
  }

  lemma {:induction false} SymsOfSeparated(v: Json)
    requires NoRaw(v)
    ensures SymsSeparated(SymsOf(v))
    decreases v, 1
  {
    match v {
      case JArr(items) =>
        if items != [] {
          SymsOfItemsSeparated(items);
          SeparatedConcat([LBracket], SymsOfItems(items));
        }
      case JObj(members) =>
        if members != [] {
          SymsOfMembersSeparated(members);
          SeparatedConcat([LBrace], SymsOfMembers(members));
        }
      case _ =>
    }
  }

  lemma {:induction false} SymsOfItemsSeparated(items: seq<Json>)
    requires items != [] && NoRawItems(items)
    ensures SymsSeparated(SymsOfItems(items))
    decreases items, 0
  {
    SymsOfSeparated(items[0]);
    if |items| > 1 {
      SymsOfItemsSeparated(items[1..]);
      SeparatedConcat([Comma], SymsOfItems(items[1..]));
    }
    SeparatedConcat(SymsOf(items[0]), if |items| == 1 then [RBracket] else [Comma] + SymsOfItems(items[1..]));
  }

  lemma {:induction false} SymsOfMembersSeparated(ms: seq<Member>)
    requires ms != [] && NoRawMembers(ms)
    ensures SymsSeparated(SymsOfMembers(ms))
    decreases ms, 0
  {
    SymsOfSeparated(ms[0].value);
    var head := [Str(ms[0].key), Colon];
    SeparatedConcat(head, SymsOf(ms[0].value));
    if |ms| > 1 {
      SymsOfMembersSeparated(ms[1..]);
      SeparatedConcat([Comma], SymsOfMembers(ms[1..]));
    }
    SeparatedConcat(head + SymsOf(ms[0].value), if |ms| == 1 then [RBrace] else [Comma] + SymsOfMembers(ms[1..]));
  }

  // ----- writing

  /** json.Marshal succeeds: numbers are numbers and raw texts are JSON texts. Raw text
      is well-formed UTF-8 here, which every caller checks before it writes. */
  predicate Marshals(v: Json) {
    match v
    case JNum(lexeme) => ValidNumber(lexeme) && lexeme != []
    case JArr(items) => MarshalsItems(items)
    case JObj(members) => MarshalsMembers(members)
    case JRaw(text) => Valid(text) && Parse(text).Some?
    case _ => true
  }

  predicate MarshalsItems(items: seq<Json>) {
    items == [] || (Marshals(items[0]) && MarshalsItems(items[1..]))
  }

  predicate MarshalsMembers(ms: seq<Member>) {
    ms == [] || (Marshals(ms[0].value) && MarshalsMembers(ms[1..]))
  }

  /** The tokens of embedded raw text: white space goes, strings may be respelled. */
  function RawTokens(ts: seq<Token>, html: bool): seq<Token>
    requires WfTokens(ts)
  {
    if html then seq(|ts|, i requires 0 <= i < |ts| => HtmlToken(ts[i])) else ts
  }

  function Tokens(v: Json, html: bool): (r: seq<Token>)
    requires Marshals(v)
  {
    match v
    case JNull => [Token(Null, "null")]
    case JBool(b) => [if b then Token(True, "true") else Token(False, "false")]
    case JNum(lexeme) => [Token(Number(lexeme), lexeme)]
    case JStr(s) => [StringOf(s, html)]
    case JArr(items) =>
      [Token(LBracket, "[")] + if items == [] then [Token(RBracket, "]")] else ItemTokens(items, html)
    case JObj(members) =>
      [Token(LBrace, "{")] + if members == [] then [Token(RBrace, "}")] else MemberTokens(members, html)
    case JRaw(text) => LexWf(text); RawTokens(Lex(text).value, html)
  }

  function ItemTokens(items: seq<Json>, html: bool): (r: seq<Token>)
    requires items != [] && MarshalsItems(items)
  {
    Tokens(items[0], html)
    + if |items| == 1 then [Token(RBracket, "]")] else [Token(Comma, ",")] + ItemTokens(items[1..], html)
  }

  function MemberTokens(ms: seq<Member>, html: bool): (r: seq<Token>)
    requires ms != [] && MarshalsMembers(ms)
  {
    [StringOf(ms[0].key, html), Token(Colon, ":")] + Tokens(ms[0].value, html)
    + if |ms| == 1 then [Token(RBrace, "}")] else [Token(Comma, ",")] + MemberTokens(ms[1..], html)
  }

  /** The bytes json.Marshal writes; html is its default escaping of <, > and &. */
  function Text(v: Json, html: bool): Bytes
    requires Marshals(v)
  {
    Render(Tokens(v, html))
  }

  /** What a written value means to a reader: raw text is read, malformed bytes are replaced. */
  function Resolve(v: Json): Json
    requires Marshals(v)
  {
    match v
    case JStr(s) => JStr(Clean(s))
    case JArr(items) => JArr(ResolveItems(items))
    case JObj(members) => JObj(ResolveMembers(members))
    case JRaw(text) => Parse(text).value
    case _ => v
  }

  function ResolveItems(items: seq<Json>): (r: seq<Json>)
    requires MarshalsItems(items)
    ensures |r| == |items|
  {
    if items == [] then [] else [Resolve(items[0])] + ResolveItems(items[1..])
  }

  function ResolveMembers(ms: seq<Member>): (r: seq<Member>)
    requires MarshalsMembers(ms)
    ensures |r| == |ms|
  {
    if ms == [] then [] else [Member(Clean(ms[0].key), Resolve(ms[0].value))] + ResolveMembers(ms[1..])
  }

  /** Tokens that read back and are well-formed UTF-8. */
  predicate GoodTokens(ts: seq<Token>) {
    WfTokens(ts) && forall i :: 0 <= i < |ts| ==> Valid(ts[i].spelling)
  }

  /** Raw text written again keeps its tokens' meaning. */
  lemma RawTokensSyms(text: Bytes, html: bool)
    requires Valid(text) && Parse(text).Some?
    ensures GoodTokens(Tokens(JRaw(text), html))
    ensures NoRaw(Parse(text).value) && Syms(Tokens(JRaw(text), html)) == SymsOf(Parse(text).value)
  {
    var ts := Lex(text).value;
    var rs := Tokens(JRaw(text), html);
    LexWf(text);
    LexValid(text);
    forall i | 0 <= i < |ts|
      ensures WfToken(rs[i]) && rs[i].sym == ts[i].sym && Valid(rs[i].spelling)
    {
      HtmlTokenWf(ts[i]);
    }
    assert Syms(rs) == Syms(ts);
    SymsOfParse(Syms(ts));
    assert SymsOf(Parse(text).value) + [] == SymsOf(Parse(text).value);
  }

  lemma StringOfGood(s: Bytes, html: bool)
    ensures GoodTokens([StringOf(s, html)])
  {
    StringOfWf(s, html);
    StringOfValid(s, html);
  }

  lemma GoodMark(c: byte, sym: Sym)
    requires Punctuation(c) == Some(sym)
    ensures GoodTokens([Token(sym, [c])])
  {
    hide Keyword, StringToken, NumberToken;
    AsciiValid([c]);
  }

  lemma GoodPunctuation()
    ensures GoodTokens([Token(LBracket, "[")]) && GoodTokens([Token(RBracket, "]")])
    ensures GoodTokens([Token(LBrace, "{")]) && GoodTokens([Token(RBrace, "}")])
    ensures GoodTokens([Token(Comma, ",")]) && GoodTokens([Token(Colon, ":")])
  {
    hide GoodTokens;
    GoodMark('[', LBracket);
    GoodMark(']', RBracket);
    GoodMark('{', LBrace);
    GoodMark('}', RBrace);
    GoodMark(',', Comma);
    GoodMark(':', Colon);
  }

  lemma GoodConcat(a: seq<Token>, b: seq<Token>)
    requires GoodTokens(a) && GoodTokens(b)
    ensures GoodTokens(a + b) && Syms(a + b) == Syms(a) + Syms(b)
  {
  }

  lemma KeywordNext(t: Bytes)
    requires Keyword(t).Some?
    ensures t != [] && NextToken(t) == Keyword(t)
  {
    hide StringToken, NumberToken;
    assert t[0] == Keyword(t).value.spelling[0];
  }

  lemma KeywordReads()
    ensures Keyword("true") == Some(Token(True, "true"))
    ensures Keyword("false") == Some(Token(False, "false"))
    ensures Keyword("null") == Some(Token(Null, "null"))
  {
    assert "false"[0] == 'f' && "null"[0] == 'n' && "true"[0] == 't';
  }

  lemma GoodKeyword(tok: Token)
    requires Keyword(tok.spelling) == Some(tok)
    ensures GoodTokens([tok])
  {
    hide NextToken, Keyword;
    AsciiValid(tok.spelling);
    KeywordNext(tok.spelling);
  }

  lemma GoodNumber(lexeme: Bytes)
    requires ValidNumber(lexeme) && lexeme != []
    ensures GoodTokens([Token(Number(lexeme), lexeme)])
  {
    AsciiValid(lexeme);
    assert lexeme[..|lexeme|] == lexeme;
    NumberIsNext(lexeme);
  }

  lemma ArrayTokensSyms(items: seq<Json>, html: bool)
    requires MarshalsItems(items) && NoRawItems(ResolveItems(items))
    requires items != [] ==> GoodTokens(ItemTokens(items, html))
    requires items != [] ==> Syms(ItemTokens(items, html)) == SymsOfItems(ResolveItems(items))
    ensures var v := JArr(items);
      NoRaw(Resolve(v)) && Syms(Tokens(v, html)) == SymsOf(Resolve(v)) && GoodTokens(Tokens(v, html))
  {
    hide GoodTokens, ItemTokens, MemberTokens, SymsOfItems, SymsOfMembers, NoRawItems;
    GoodPunctuation();
    GoodConcat([Token(LBracket, "[")], if items == [] then [Token(RBracket, "]")] else ItemTokens(items, html));
  }

  lemma ObjectTokensSyms(ms: seq<Member>, html: bool)
    requires MarshalsMembers(ms) && NoRawMembers(ResolveMembers(ms))
    requires ms != [] ==> GoodTokens(MemberTokens(ms, html))
    requires ms != [] ==> Syms(MemberTokens(ms, html)) == SymsOfMembers(ResolveMembers(ms))
    ensures var v := JObj(ms);
      NoRaw(Resolve(v)) && Syms(Tokens(v, html)) == SymsOf(Resolve(v)) && GoodTokens(Tokens(v, html))
  {
    hide GoodTokens, ItemTokens, MemberTokens, SymsOfItems, SymsOfMembers, NoRawMembers;
    GoodPunctuation();
    GoodConcat([Token(LBrace, "{")], if ms == [] then [Token(RBrace, "}")] else MemberTokens(ms, html));
  }

  /** The tokens of a value are well-formed and mean the value. */
  lemma {:induction false} TokensSyms(v: Json, html: bool)
    requires Marshals(v)
    ensures NoRaw(Resolve(v)) && Syms(Tokens(v, html)) == SymsOf(Resolve(v))
    ensures GoodTokens(Tokens(v, html))
    decreases v, 1
  {
    hide GoodTokens, Tokens, ItemTokens, MemberTokens, SymsOf, Syms;
    match v {
      case JRaw(text) => RawTokensSyms(text, html);
      case JArr(items) =>
        if items != [] {
          ItemTokensSyms(items, html);
        }
        ArrayTokensSyms(items, html);
      case JObj(members) =>
        if members != [] {
          MemberTokensSyms(members, html);
        }
        ObjectTokensSyms(members, html);
      case _ => ScalarTokens(v, html);
    }
  }

  lemma ScalarTokens(v: Json, html: bool)
    requires Marshals(v) && !v.JRaw? && !v.JArr? && !v.JObj?
    ensures NoRaw(Resolve(v)) && Syms(Tokens(v, html)) == SymsOf(Resolve(v))
    ensures GoodTokens(Tokens(v, html))
  {
    KeywordReads();
    match v {
      case JStr(s) => StringOfGood(s, html);
      case JNum(lexeme) => GoodNumber(lexeme);
      case JNull => GoodKeyword(Token(Null, "null"));
      case JBool(b) => GoodKeyword(if b then Token(True, "true") else Token(False, "false"));
    }
  }

  lemma {:induction false} ItemTokensSyms(items: seq<Json>, html: bool)
    requires items != [] && MarshalsItems(items)
    ensures NoRawItems(ResolveItems(items)) && Syms(ItemTokens(items, html)) == SymsOfItems(ResolveItems(items))
    ensures GoodTokens(ItemTokens(items, html))
    decreases items, 0
  {
    hide GoodTokens, Tokens, Resolve, SymsOf;
    TokensSyms(items[0], html);
    GoodPunctuation();
    var r := ResolveItems(items);
    assert r[1..] == ResolveItems(items[1..]);
    var tail := if |items| == 1 then [Token(RBracket, "]")] else [Token(Comma, ",")] + ItemTokens(items[1..], html);
    if |items| > 1 {
      ItemTokensSyms(items[1..], html);
      GoodConcat([Token(Comma, ",")], ItemTokens(items[1..], html));
      assert Syms(tail) == [Comma] + SymsOfItems(r[1..]);
    }
    GoodConcat(Tokens(items[0], html), tail);
  }

  lemma {:induction false} MemberTokensSyms(ms: seq<Member>, html: bool)
    requires ms != [] && MarshalsMembers(ms)
    ensures NoRawMembers(ResolveMembers(ms)) && Syms(MemberTokens(ms, html)) == SymsOfMembers(ResolveMembers(ms))
    ensures GoodTokens(MemberTokens(ms, html))
    decreases ms, 0
  {
    hide GoodTokens, Tokens, Resolve, SymsOf, StringOf;
    TokensSyms(ms[0].value, html);
    var r := ResolveMembers(ms);
    assert r[1..] == ResolveMembers(ms[1..]);
    var head := [StringOf(ms[0].key, html), Token(Colon, ":")];
    var tail := if |ms| == 1 then [Token(RBrace, "}")] else [Token(Comma, ",")] + MemberTokens(ms[1..], html);
    KeyTokens(ms[0].key, html);
    GoodPunctuation();
    if |ms| > 1 {
      MemberTokensSyms(ms[1..], html);
      GoodConcat([Token(Comma, ",")], MemberTokens(ms[1..], html));
      assert Syms(tail) == [Comma] + SymsOfMembers(r[1..]);
    }
    GoodConcat(head, Tokens(ms[0].value, html));
    GoodConcat(head + Tokens(ms[0].value, html), tail);
  }

  lemma KeyTokens(key: Bytes, html: bool)
    ensures GoodTokens([StringOf(key, html), Token(Colon, ":")])
    ensures Syms([StringOf(key, html), Token(Colon, ":")]) == [Str(Clean(key)), Colon]
  {
    StringOfGood(key, html);
    GoodPunctuation();
    GoodConcat([StringOf(key, html)], [Token(Colon, ":")]);
  }

  lemma SeparatedSyms(ts: seq<Token>)
    requires SymsSeparated(Syms(ts))
    ensures Separated(ts)
  {
    forall i | 0 <= i < |ts| - 1
      ensures !(ts[i].sym.Number? && ts[i + 1].sym.Number?)
    {
      assert Syms(ts)[i] == ts[i].sym && Syms(ts)[i + 1] == ts[i + 1].sym;
    }
  }

  /** Whatever json.Marshal writes reads back as the value that was written. */
  lemma MarshalParse(v: Json, html: bool)
    requires Marshals(v)
    ensures Parse(Text(v, html)) == Some(Resolve(v))
  {
    hide Marshals, Tokens, Resolve, SymsOf, ParseValue, Lex, Render, Separated, SymsSeparated, WfToken, NoRaw;
    var ts := Tokens(v, html);
    TokensSyms(v, html);
    SymsOfSeparated(Resolve(v));
    SeparatedSyms(ts);
    LexRender(ts);
    ParseOfSyms(Resolve(v), []);
    AddEmpty(SymsOf(Resolve(v)));
  }

  lemma {:induction false} RenderValid(ts: seq<Token>)
    requires GoodTokens(ts)
    ensures Valid(Render(ts))
  {
    if ts != [] {
      RenderValid(ts[1..]);
      ValidConcat(ts[0].spelling, Render(ts[1..]));
    }
  }

  /** Written text is well-formed UTF-8 even when the strings were not. */
  lemma TextValid(v: Json, html: bool)
    requires Marshals(v)
    ensures Valid(Text(v, html))
  {
    TokensSyms(v, html);
    RenderValid(Tokens(v, html));
  }
}
