/** What the written form of a payload reads back as, and its size. */
module PayloadWire {
  import opened Bytes
  import opened Utf8
  import opened JsonText
  import opened JsonStrings
  import opened JsonTree
  import opened JsonDepth
  import opened JsonDecode
  import opened JsonLength

  // ----- writing raw text that was written before

  lemma HtmlChunkEscaped(s: Bytes, rest: Bytes)
    requires s != []
    ensures BodyStep(EscapeChunk(s, true) + rest).Piece?
    ensures BodyStep(EscapeChunk(s, true) + rest).n == |EscapeChunk(s, true)|
    ensures HtmlChunk(EscapeChunk(s, true) + rest) == EscapeChunk(s, true)
  {
    hide BodyStep;
    EscapeChunkStep(s, true, rest);
    var chunk := EscapeChunk(s, true);
    DropTake(chunk, rest);
    if |chunk| == 1 {
      assert (chunk + rest)[0] == chunk[0];
      assert !HtmlByte(chunk[0]);
    } else if |chunk| == 3 {
      assert forall i :: 0 <= i < 3 ==> (chunk + rest)[i] == chunk[i];
      assert !LineSeparator(chunk + rest);
    }
  }

  /** Respelling a body that was escaped for HTML changes nothing. */
  lemma {:induction false} HtmlEscaped(s: Bytes)
    ensures Html(Escape(s, true) + "\"") == Escape(s, true) + "\""
  {
    hide EscapeChunk, BodyStep, HtmlChunk;
    if s != [] {
      var chunk, tail := EscapeChunk(s, true), Escape(s[Stride(s)..], true);
      HtmlEscaped(s[Stride(s)..]);
      HtmlChunkEscaped(s, tail + "\"");
      Assoc(chunk, tail, "\"");
      DropTake(chunk, tail + "\"");
    } else {
      QuoteEnds();
    }
  }

  lemma QuoteEnds()
    ensures BodyStep([] + "\"") == End
  {
  }

  lemma HtmlTokenWritten(s: Bytes)
    ensures WfToken(StringOf(s, true)) && HtmlToken(StringOf(s, true)) == StringOf(s, true)
  {
    hide Escape, Html, WfToken;
    StringOfWf(s, true);
    HtmlEscaped(s);
    Assoc("\"", Escape(s, true), "\"");
    DropTake("\"", Escape(s, true) + "\"");
  }

  /** Every token of a value without raw text is already spelled as HTML-safe text. */
  lemma {:induction false} TokensWritten(v: Json)
    requires WellFormed(v) && Marshals(v)
    ensures GoodTokens(Tokens(v, true)) && RawTokens(Tokens(v, true), true) == Tokens(v, true)
    decreases v, 1
  {
    hide GoodTokens, HtmlToken, ItemTokens, MemberTokens;
    TokensSyms(v, true);
    TokensFixed(v);
    GoodIsWf(Tokens(v, true));
  }

  lemma GoodIsWf(ts: seq<Token>)
    requires GoodTokens(ts)
    ensures WfTokens(ts)
  {
  }

  /** The respelling leaves each token alone. */
  ghost predicate Fixed(ts: seq<Token>) {
    forall i :: 0 <= i < |ts| ==> WfToken(ts[i]) && HtmlToken(ts[i]) == ts[i]
  }

  lemma FixedConcat(a: seq<Token>, b: seq<Token>)
    requires Fixed(a) && Fixed(b)
    ensures Fixed(a + b)
  {
    hide WfToken, HtmlToken;
  }

  lemma FixedOther(tok: Token)
    requires GoodTokens([tok]) && !tok.sym.Str?
    ensures Fixed([tok])
  {
    assert WfToken([tok][0]);
  }

  lemma FixedPunctuation()
    ensures Fixed([Token(LBracket, "[")]) && Fixed([Token(RBracket, "]")])
    ensures Fixed([Token(LBrace, "{")]) && Fixed([Token(RBrace, "}")])
    ensures Fixed([Token(Comma, ",")]) && Fixed([Token(Colon, ":")])
  {
    hide GoodTokens, Fixed;
    GoodPunctuation();
    FixedOther(Token(LBracket, "["));
    FixedOther(Token(RBracket, "]"));
    FixedOther(Token(LBrace, "{"));
    FixedOther(Token(RBrace, "}"));
    FixedOther(Token(Comma, ","));
    FixedOther(Token(Colon, ":"));
  }

  lemma {:induction false} TokensFixed(v: Json)
    requires WellFormed(v) && Marshals(v)
    ensures Fixed(Tokens(v, true))
    decreases v, 1
  {
    hide Fixed, GoodTokens;
    match v {
      case JArr(items) =>
        FixedPunctuation();
        if items != [] {
          ItemTokensFixed(items);
          FixedConcat([Token(LBracket, "[")], ItemTokens(items, true));
        } else {
          FixedConcat([Token(LBracket, "[")], [Token(RBracket, "]")]);
        }
      case JObj(members) =>
        FixedPunctuation();
        if members != [] {
          MemberTokensFixed(members);
          FixedConcat([Token(LBrace, "{")], MemberTokens(members, true));
        } else {
          FixedConcat([Token(LBrace, "{")], [Token(RBrace, "}")]);
        }
      case JStr(s) => FixedString(s);
      case _ => ScalarFixed(v);
    }
  }

  lemma FixedString(s: Bytes)
    ensures Fixed([StringOf(s, true)])
  {
    hide WfToken, HtmlToken, StringOf;
    HtmlTokenWritten(s);
  }

  lemma ScalarFixed(v: Json)
    requires WellFormed(v) && Marshals(v) && (v.JNull? || v.JBool? || v.JNum?)
    ensures Fixed(Tokens(v, true))
  {
    hide GoodTokens, Fixed;
    ScalarTokens(v, true);
    FixedOther(Tokens(v, true)[0]);
  }

  lemma {:induction false} ItemTokensFixed(items: seq<Json>)
    requires items != [] && WellFormedItems(items) && MarshalsItems(items)
    ensures Fixed(ItemTokens(items, true))
    decreases items, 0
  {
    hide Fixed, Tokens;
    TokensFixed(items[0]);
    FixedPunctuation();
    var tail := if |items| == 1 then [Token(RBracket, "]")] else [Token(Comma, ",")] + ItemTokens(items[1..], true);
    if |items| > 1 {
      ItemTokensFixed(items[1..]);
      FixedConcat([Token(Comma, ",")], ItemTokens(items[1..], true));
    }
    FixedConcat(Tokens(items[0], true), tail);
  }

  lemma {:induction false} MemberTokensFixed(ms: seq<Member>)
    requires ms != [] && WellFormedMembers(ms) && MarshalsMembers(ms)
    ensures Fixed(MemberTokens(ms, true))
    decreases ms, 0
  {
    hide Fixed, Tokens, StringOf;
    TokensFixed(ms[0].value);
    FixedString(ms[0].key);
    FixedPunctuation();
    var head := [StringOf(ms[0].key, true), Token(Colon, ":")];
    var tail := if |ms| == 1 then [Token(RBrace, "}")] else [Token(Comma, ",")] + MemberTokens(ms[1..], true);
    FixedConcat([StringOf(ms[0].key, true)], [Token(Colon, ":")]);
    assert [StringOf(ms[0].key, true)] + [Token(Colon, ":")] == head;
    if |ms| > 1 {
      MemberTokensFixed(ms[1..]);
      FixedConcat([Token(Comma, ",")], MemberTokens(ms[1..], true));
    }
    FixedConcat(head, Tokens(ms[0].value, true));
    FixedConcat(head + Tokens(ms[0].value, true), tail);
  }

  /** Text that json.Marshal wrote is embedded unchanged, byte for byte. */
  lemma RewriteSame(v: Json)
    requires WellFormed(v) && Marshals(v)
    ensures Marshals(JRaw(Text(v, true))) && Text(JRaw(Text(v, true)), true) == Text(v, true)
    ensures Resolve(JRaw(Text(v, true))) == v
  {
    hide Valid, Parse, GoodTokens, HtmlToken, WellFormed;
    PrintParse(v, true);
    TextValid(v, true);
    TokensWritten(v);
    LexOfText(v);
  }

  lemma LexOfText(v: Json)
    requires Marshals(v)
    ensures Lex(Text(v, true)) == Some(Tokens(v, true))
  {
    hide Tokens, Resolve, SymsOf, WfToken;
    var ts := Tokens(v, true);
    TokensSyms(v, true);
    SymsOfSeparated(Resolve(v));
    assert Separated(ts) by {
      forall i | 0 <= i < |ts| - 1
        ensures !(ts[i].sym.Number? && ts[i + 1].sym.Number?)
      {
        assert Syms(ts)[i] == ts[i].sym && Syms(ts)[i + 1] == ts[i + 1].sym;
      }
    }
    LexRender(ts);
  }

  // ----- reading objects member by member

  /** The members of a written object as the decoder assigns them to a map. */
  function ReadMembers(ms: seq<Member>): seq<Member>
    requires MarshalsMembers(ms)
  {
    CanonMembers(ResolveMembers(ms))
  }

  function ReadValue(v: Json): Json
    requires Marshals(v)
  {
    Canon(Resolve(v))
  }

  lemma ReadOne(m: Member)
    requires Marshals(m.value) && Valid(m.key)
    ensures MarshalsMembers([m]) && ReadMembers([m]) == [Member(m.key, ReadValue(m.value))]
    ensures ResolveMembers([m]) == [Member(m.key, Resolve(m.value))]
    ensures LengthMembers([m], true) == |Escape(m.key, true)| + Length(m.value, true) + 4
    ensures NodesMembers([Member(m.key, ReadValue(m.value))]) == Nodes(ReadValue(m.value))
    ensures DepthMembers([Member(m.key, Resolve(m.value))]) == Depth(Resolve(m.value))
  {
    hide Marshals, Resolve, Canon, Length, Nodes, Depth, Clean, Escape;
    CleanValid(m.key);
    assert [m][1..] == [];
    var r := [Member(m.key, Resolve(m.value))];
    assert ResolveMembers([m]) == r && r[1..] == [];
    var q := [Member(m.key, Canon(Resolve(m.value)))];
    assert q[1..] == [];
  }

  lemma ReadConcat(a: seq<Member>, b: seq<Member>)
    requires MarshalsMembers(a) && MarshalsMembers(b)
    ensures MarshalsMembers(a + b)
    ensures ResolveMembers(a + b) == ResolveMembers(a) + ResolveMembers(b)
    ensures ReadMembers(a + b) == ReadMembers(a) + ReadMembers(b)
    ensures LengthMembers(a + b, true) == LengthMembers(a, true) + LengthMembers(b, true)
  {
    hide MarshalsMembers, ResolveMembers, LengthMembers, CanonMembers;
    ResolveConcat(a, b);
    CanonConcat(ResolveMembers(a), ResolveMembers(b));
  }

  lemma {:induction false} ResolveConcat(a: seq<Member>, b: seq<Member>)
    requires MarshalsMembers(a) && MarshalsMembers(b)
    ensures MarshalsMembers(a + b)
    ensures ResolveMembers(a + b) == ResolveMembers(a) + ResolveMembers(b)
    ensures LengthMembers(a + b, true) == LengthMembers(a, true) + LengthMembers(b, true)
  {
    hide Marshals, Resolve, Length, Clean, Escape;
    if a == [] {
      AddEmpty(b);
    } else {
      ResolveConcat(a[1..], b);
      assert (a + b)[1..] == a[1..] + b;
      Assoc([Member(Clean(a[0].key), Resolve(a[0].value))], ResolveMembers(a[1..]), ResolveMembers(b));
    }
  }

  lemma {:induction false} CanonConcat(a: seq<Member>, b: seq<Member>)
    ensures CanonMembers(a + b) == CanonMembers(a) + CanonMembers(b)
  {
    hide Canon;
    if a == [] {
      AddEmpty(b);
      AddEmpty(CanonMembers(b));
    } else {
      CanonConcat(a[1..], b);
      assert (a + b)[1..] == a[1..] + b;
      Assoc([Member(a[0].key, Canon(a[0].value))], CanonMembers(a[1..]), CanonMembers(b));
    }
  }

  lemma {:induction false} MeasuresConcat(a: seq<Member>, b: seq<Member>)
    ensures NodesMembers(a + b) == NodesMembers(a) + NodesMembers(b)
    ensures DepthMembers(a + b) == Max(DepthMembers(a), DepthMembers(b))
  {
    hide Nodes, Depth;
    if a == [] {
      AddEmpty(b);
    } else {
      MeasuresConcat(a[1..], b);
      assert (a + b)[1..] == a[1..] + b;
    }
  }

  // ----- distinct keys

  ghost predicate DistinctKeys(ms: seq<Member>) {
    forall i, j :: 0 <= i < j < |ms| ==> ms[i].key != ms[j].key
  }

  lemma {:induction false} InsertFresh(ms: seq<Member>, m: Member)
    requires forall i :: 0 <= i < |ms| ==> ms[i].key != m.key
    ensures NodesMembers(Insert(ms, m)) == NodesMembers(ms) + Nodes(m.value)
    ensures forall i :: 0 <= i < |Insert(ms, m)| ==> Insert(ms, m)[i].key == m.key || HasKey(ms, Insert(ms, m)[i].key)
  {
    hide Nodes, Less;
    var r := Insert(ms, m);
    if ms != [] {
      if Less(m.key, ms[0].key) {
        assert r[1..] == ms;
        forall i | 0 <= i < |r|
          ensures r[i].key == m.key || HasKey(ms, r[i].key)
        {
          if i > 0 {
            assert r[i] == ms[i - 1];
          }
        }
      } else {
        assert forall i :: 0 <= i < |ms[1..]| ==> ms[1..][i] == ms[i + 1];
        InsertFresh(ms[1..], m);
        assert r[1..] == Insert(ms[1..], m);
        forall i | 0 <= i < |r|
          ensures r[i].key == m.key || HasKey(ms, r[i].key)
        {
          if i > 0 {
            var q := Insert(ms[1..], m)[i - 1];
            assert r[i] == q;
            if q.key != m.key {
              var k :| 0 <= k < |ms[1..]| && ms[1..][k].key == q.key;
              assert ms[k + 1].key == r[i].key;
            }
          } else {
            assert ms[0].key == r[0].key;
          }
        }
      }
    }
  }

  /** With distinct keys nothing is overwritten, so no node is lost. */
  lemma {:induction false} InsertAllFresh(kept: seq<Member>, ms: seq<Member>)
    requires DistinctKeys(ms)
    requires forall i, j :: 0 <= i < |kept| && 0 <= j < |ms| ==> kept[i].key != ms[j].key
    ensures NodesMembers(InsertAll(kept, ms)) == NodesMembers(kept) + NodesMembers(ms)
    decreases |ms|
  {
    hide Nodes, Insert;
    if ms != [] {
      InsertFresh(kept, ms[0]);
      var next := Insert(kept, ms[0]);
      forall i, j | 0 <= i < |next| && 0 <= j < |ms[1..]|
        ensures next[i].key != ms[1..][j].key
      {
        if next[i].key != ms[0].key {
          var k :| 0 <= k < |kept| && kept[k].key == next[i].key;
          assert kept[k].key != ms[j + 1].key;
        }
      }
      assert DistinctKeys(ms[1..]) by {
        assert forall i :: 0 <= i < |ms[1..]| ==> ms[1..][i] == ms[i + 1];
      }
      InsertAllFresh(next, ms[1..]);
    }
  }

  /** An object with distinct keys reads as a map of the same size. */
  lemma ReadObject(ms: seq<Member>)
    requires MarshalsMembers(ms)
    ensures Marshals(JObj(ms)) && ReadValue(JObj(ms)) == JObj(InsertAll([], ReadMembers(ms)))
    ensures Nodes(ReadValue(JObj(ms))) <= 1 + NodesMembers(ReadMembers(ms))
    ensures DistinctKeys(ReadMembers(ms)) ==> Nodes(ReadValue(JObj(ms))) == 1 + NodesMembers(ReadMembers(ms))
    ensures Depth(Resolve(JObj(ms))) == 1 + DepthMembers(ResolveMembers(ms))
    ensures Length(JObj(ms), true) <= 2 + LengthMembers(ms, true)
  {
    InsertAllBounds([], ReadMembers(ms));
    if DistinctKeys(ReadMembers(ms)) {
      InsertAllFresh([], ReadMembers(ms));
    }
  }
}
