/** The length of written JSON, and what prefixes of arrays and objects keep. */
module JsonLength {
  import opened Bytes
  import opened Utf8
  import opened JsonText
  import opened JsonStrings
  import opened JsonTree
  import opened JsonDepth
  import opened JsonDecode

  /** Bytes of the written text, without writing it. */
  function Length(v: Json, html: bool): nat
    requires Marshals(v)
  {
    match v
    case JNull => 4
    case JBool(b) => if b then 4 else 5
    case JNum(lexeme) => |lexeme|
    case JStr(s) => |Escape(s, html)| + 2
    case JArr(items) => if items == [] then 2 else 1 + LengthItems(items, html)
    case JObj(members) => if members == [] then 2 else 1 + LengthMembers(members, html)
    case JRaw(text) => |Text(v, html)|
  }

  /** Each item with the comma or bracket behind it. */
  function LengthItems(items: seq<Json>, html: bool): nat
    requires MarshalsItems(items)
  {
    if items == [] then 0 else Length(items[0], html) + 1 + LengthItems(items[1..], html)
  }

  /** Each member with its quotes, its colon and the comma or brace behind it. */
  function LengthMembers(ms: seq<Member>, html: bool): nat
    requires MarshalsMembers(ms)
  {
    if ms == [] then 0
    else |Escape(ms[0].key, html)| + 3 + Length(ms[0].value, html) + 1 + LengthMembers(ms[1..], html)
  }

  lemma RenderOne(tok: Token)
    ensures Render([tok]) == tok.spelling
  {
    AddEmpty(tok.spelling);
  }

  lemma RenderCons(tok: Token, ts: seq<Token>)
    ensures Render([tok] + ts) == tok.spelling + Render(ts)
  {
    DropTake([tok], ts);
  }

  lemma {:induction false} LengthIsTextLength(v: Json, html: bool)
    requires Marshals(v)
    ensures |Text(v, html)| == Length(v, html)
    decreases v, 1
  {
    match v {
      case JNull => RenderOne(Token(Null, "null"));
      case JBool(b) => RenderOne(if b then Token(True, "true") else Token(False, "false"));
      case JNum(lexeme) => RenderOne(Token(Number(lexeme), lexeme));
      case JStr(s) => RenderOne(StringOf(s, html));
      case JArr(items) =>
        if items != [] {
          LengthOfItemTokens(items, html);
          RenderCons(Token(LBracket, "["), ItemTokens(items, html));
        } else {
          RenderCons(Token(LBracket, "["), [Token(RBracket, "]")]);
          RenderOne(Token(RBracket, "]"));
        }
      case JObj(members) =>
        if members != [] {
          LengthOfMemberTokens(members, html);
          RenderCons(Token(LBrace, "{"), MemberTokens(members, html));
        } else {
          RenderCons(Token(LBrace, "{"), [Token(RBrace, "}")]);
          RenderOne(Token(RBrace, "}"));
        }
      case JRaw(_) =>
    }
  }

  lemma {:induction false} LengthOfItemTokens(items: seq<Json>, html: bool)
    requires items != [] && MarshalsItems(items)
    ensures |Render(ItemTokens(items, html))| == LengthItems(items, html)
    decreases items, 0
  {
    LengthIsTextLength(items[0], html);
    if |items| == 1 {
      RenderConcat(Tokens(items[0], html), [Token(RBracket, "]")]);
      RenderOne(Token(RBracket, "]"));
    } else {
      LengthOfItemTokens(items[1..], html);
      RenderConcat(Tokens(items[0], html), [Token(Comma, ",")] + ItemTokens(items[1..], html));
      RenderCons(Token(Comma, ","), ItemTokens(items[1..], html));
    }
  }

  lemma {:induction false} LengthOfMemberTokens(ms: seq<Member>, html: bool)
    requires ms != [] && MarshalsMembers(ms)
    ensures |Render(MemberTokens(ms, html))| == LengthMembers(ms, html)
    decreases ms, 0
  {
    hide StringOf, Tokens;
    var head := [StringOf(ms[0].key, html), Token(Colon, ":")];
    var tail := if |ms| == 1 then [Token(RBrace, "}")] else [Token(Comma, ",")] + MemberTokens(ms[1..], html);
    LengthIsTextLength(ms[0].value, html);
    KeyLength(ms[0].key, html);
    RenderConcat(head, Tokens(ms[0].value, html));
    RenderConcat(head + Tokens(ms[0].value, html), tail);
    if |ms| == 1 {
      RenderOne(Token(RBrace, "}"));
    } else {
      LengthOfMemberTokens(ms[1..], html);
      RenderCons(Token(Comma, ","), MemberTokens(ms[1..], html));
    }
  }

  lemma KeyLength(key: Bytes, html: bool)
    ensures |Render([StringOf(key, html), Token(Colon, ":")])| == |Escape(key, html)| + 3
  {
    RenderCons(StringOf(key, html), [Token(Colon, ":")]);
    assert [StringOf(key, html)] + [Token(Colon, ":")] == [StringOf(key, html), Token(Colon, ":")];
    RenderOne(Token(Colon, ":"));
  }

  // ----- prefixes

  /** A prefix of decoded items is decoded, and no larger in any measure. */
  lemma {:induction false} PrefixItems(items: seq<Json>, j: nat, k: nat)
    requires WellFormedItems(items) && CanonicalItems(items) && j <= k <= |items|
    ensures WellFormedItems(items[..j]) && CanonicalItems(items[..j])
    ensures WellFormedItems(items[..k]) && MarshalsItems(items[..j]) && MarshalsItems(items[..k])
    ensures LengthItems(items[..j], true) <= LengthItems(items[..k], true)
    ensures NodesItems(items[..j]) <= NodesItems(items[..k])
    ensures DepthItems(items[..j]) <= DepthItems(items[..k])
  {
    if j > 0 {
      PrefixItems(items[1..], j - 1, k - 1);
      assert items[..j][1..] == items[1..][..j - 1];
      assert items[..k][1..] == items[1..][..k - 1];
      WellFormedMarshals(items[0]);
    } else if k > 0 {
      PrefixItems(items[1..], 0, k - 1);
      assert items[..k][1..] == items[1..][..k - 1];
      WellFormedMarshals(items[0]);
    }
  }

  lemma {:induction false} PrefixMembers(ms: seq<Member>, j: nat, k: nat)
    requires KeptMembers(ms) && j <= k <= |ms|
    ensures KeptMembers(ms[..j])
    ensures WellFormedMembers(ms[..k]) && MarshalsMembers(ms[..j]) && MarshalsMembers(ms[..k])
    ensures LengthMembers(ms[..j], true) <= LengthMembers(ms[..k], true)
    ensures NodesMembers(ms[..j]) <= NodesMembers(ms[..k])
    ensures DepthMembers(ms[..j]) <= DepthMembers(ms[..k])
  {
    if j > 0 {
      PrefixMembers(ms[1..], j - 1, k - 1);
      assert ms[..j][1..] == ms[1..][..j - 1];
      assert ms[..k][1..] == ms[1..][..k - 1];
      WellFormedMarshals(ms[0].value);
    } else if k > 0 {
      PrefixMembers(ms[1..], 0, k - 1);
      assert ms[..k][1..] == ms[1..][..k - 1];
      WellFormedMarshals(ms[0].value);
    }
  }

  // ----- literal text

  /** Bytes that no escaping touches. */
  predicate PlainText(s: Bytes) {
    forall i :: 0 <= i < |s| ==> ' ' <= s[i] <= '~' && s[i] != '"' && s[i] != '\\' && !HtmlByte(s[i])
  }

  lemma {:induction false} EscapePlain(s: Bytes, html: bool)
    requires PlainText(s)
    ensures Escape(s, html) == s && Valid(s)
  {
    if s != [] {
      EscapePlain(s[1..], html);
      assert Width(s) == 1;
      assert s == [s[0]] + s[1..];
    }
  }
}
