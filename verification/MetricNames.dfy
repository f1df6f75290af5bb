/** The clean-up of free text used as a metric value (sanitizeMetricValue in genai/recorder.go):
    letters, digits and four marks stay, white space becomes an underscore, the rest goes. */
module MetricNames {
  import opened Bytes
  import opened Utf8

  /** The Unicode classes the clean-up asks about: letters and digits, and white space. */
  datatype Unicode = Unicode(letter: int -> bool, space: int -> bool)

  const MAX_VALUE: int := 80
  const REPLACED: int := 0xFFFD
  const UNDERSCORE: int := '_' as int

  predicate Mark(r: int) { r == UNDERSCORE || r == '-' as int || r == '.' as int || r == '/' as int }

  predicate Stays(u: Unicode, r: int) { u.letter(r) || Mark(r) }

  // ----- characters of a Go string

  /** A character and the bytes it takes; a malformed byte counts as U+FFFD. */
  function FirstRune(s: Bytes): (r: (int, nat))
    requires s != []
    ensures Scalar(r.0) && 0 < r.1 <= |s|
  {
    if Width(s) == 0 then (REPLACED, 1) else WidthDecodes(s); (DecodeRune(s), Width(s))
  }

  /** The last k bytes are one well-formed character. */
  predicate EndsIn(s: Bytes, k: nat) { 0 < k <= |s| && Width(s[|s| - k..]) == k }

  /** The width of the well-formed character at the end of s, 0 when there is none. */
  function LastWidth(s: Bytes): (w: nat)
    ensures w <= |s| && w <= 4 && (w > 0 ==> EndsIn(s, w))
  {
    if EndsIn(s, 1) then 1
    else if EndsIn(s, 2) then 2
    else if EndsIn(s, 3) then 3
    else if EndsIn(s, 4) then 4
    else 0
  }

  function LastRune(s: Bytes): (r: (int, nat))
    requires s != []
    ensures 0 < r.1 <= |s|
  {
    var w := LastWidth(s);
    if w == 0 then (REPLACED, 1) else (DecodeRune(s[|s| - w..]), w)
  }

  function TrimStart(u: Unicode, s: Bytes): Bytes
  {
    if s != [] && u.space(FirstRune(s).0) then TrimStart(u, s[FirstRune(s).1..]) else s
  }

  function TrimEnd(u: Unicode, s: Bytes): Bytes
  {
    if s != [] && u.space(LastRune(s).0) then TrimEnd(u, s[..|s| - LastRune(s).1]) else s
  }

  function TrimSpace(u: Unicode, s: Bytes): Bytes { TrimEnd(u, TrimStart(u, s)) }

  // ----- the clean-up

  /** What one character contributes. */
  function Written(u: Unicode, r: int): (e: Bytes)
    requires Scalar(r)
    ensures |e| <= 4
  {
    if Stays(u, r) then EncodeRune(r) else if u.space(r) then "_" else []
  }

  /** What is written for s after n bytes; writing stops once the bound is reached. */
  function Cleaned(u: Unicode, s: Bytes, n: nat): Bytes
  {
    if s == [] then []
    else
      var e := Written(u, FirstRune(s).0);
      if n + |e| >= MAX_VALUE then e else e + Cleaned(u, s[FirstRune(s).1..], n + |e|)
  }

  /** What all characters of s contribute, with no bound. */
  function AllWritten(u: Unicode, s: Bytes): Bytes
  {
    if s == [] then [] else Written(u, FirstRune(s).0) + AllWritten(u, s[FirstRune(s).1..])
  }

  function MetricValue(u: Unicode, value: Bytes, fallback: Bytes): Bytes
  {
    var clean := Cleaned(u, TrimSpace(u, value), 0);
    if clean == [] then fallback else clean
  }

  method SanitizeMetricValue(u: Unicode, value: Bytes, fallback: Bytes) returns (r: Bytes)
    ensures r == MetricValue(u, value, fallback)
  {
    hide TrimSpace, Written, FirstRune;
    var trimmed := TrimSpace(u, value);
    if trimmed == "" {
      return fallback;
    }
    var b: Bytes := [];
    var i := 0;
    ghost var rest := trimmed;
    while i < |trimmed|
      invariant 0 <= i <= |trimmed| && rest == trimmed[i..]
      invariant b + Cleaned(u, rest, |b|) == Cleaned(u, trimmed, 0)
    {
      var (c, w) := FirstRune(trimmed[i..]);
      var e := Written(u, c);
      ghost var before := b;
      b := b + e;
      i := i + w;
      if |b| >= MAX_VALUE {
        break;
      }
      rest := rest[w..];
      Assoc(before, e, Cleaned(u, rest, |b|));
    }
    AddEmpty(b);
    if |b| == 0 {
      return fallback;
    }
    return b;
  }

  // ----- what the result is

  /** A sequence of characters that stay, none of them after the bound. */
  predicate Tidy(u: Unicode, s: Bytes, n: nat)
  {
    s == [] ||
    (n < MAX_VALUE && Width(s) > 0 && Stays(u, DecodeRune(s)) && Tidy(u, s[Width(s)..], n + Width(s)))
  }

  lemma WrittenStays(u: Unicode, r: int, rest: Bytes)
    requires Scalar(r) && Written(u, r) != []
    ensures var e := Written(u, r);
      Width(e + rest) == |e| && Stays(u, DecodeRune(e + rest))
  {
    hide Width, DecodeRune, EncodeRune;
    if Stays(u, r) {
      EncodeDecodes(r, rest);
    } else {
      UnderscoreEncodes();
      EncodeDecodes(UNDERSCORE, rest);
    }
  }

  lemma UnderscoreEncodes()
    ensures EncodeRune(UNDERSCORE) == "_"
  {
  }

  lemma {:induction false} CleanedIsTidy(u: Unicode, s: Bytes, n: nat)
    requires n < MAX_VALUE
    ensures Tidy(u, Cleaned(u, s, n), n)
  {
    hide Written, FirstRune, Width, DecodeRune, Stays;
    if s != [] {
      var e, t := Written(u, FirstRune(s).0), s[FirstRune(s).1..];
      var rest := if n + |e| >= MAX_VALUE then [] else Cleaned(u, t, n + |e|);
      if n + |e| < MAX_VALUE {
        CleanedIsTidy(u, t, n + |e|);
      } else {
        AddEmpty(e);
      }
      if e == [] {
        AddEmpty(rest);
      } else {
        WrittenStays(u, FirstRune(s).0, rest);
        DropTake(e, rest);
      }
    }
  }

  /** Tidy text is written as it is. */
  lemma {:induction false} TidyIsFixed(u: Unicode, s: Bytes, n: nat)
    requires Tidy(u, s, n)
    ensures Cleaned(u, s, n) == s
  {
    hide Width, DecodeRune, Stays, EncodeRune;
    if s != [] {
      TidyHead(u, s);
      TidyIsFixed(u, s[Width(s)..], n + Width(s));
      Split(s, Width(s));
      AddEmpty(s[..Width(s)]);
    }
  }

  /** The character at the head of clean text is written as its own bytes. */
  lemma TidyHead(u: Unicode, s: Bytes)
    requires s != [] && Width(s) > 0 && Stays(u, DecodeRune(s))
    ensures FirstRune(s) == (DecodeRune(s), Width(s)) && Scalar(FirstRune(s).0)
      && Written(u, FirstRune(s).0) == s[..Width(s)]
  {
    hide Width, DecodeRune, Stays, EncodeRune;
    WidthDecodes(s);
  }

  /** At most three bytes over the bound, and well-formed. */
  lemma {:induction false} TidyBounds(u: Unicode, s: Bytes, n: nat)
    requires Tidy(u, s, n) && s != []
    ensures n + |s| < MAX_VALUE + 4 && Valid(s)
  {
    hide DecodeRune, Stays;
    if s[Width(s)..] != [] {
      TidyBounds(u, s[Width(s)..], n + Width(s));
    }
  }

  /** Letters, digits and marks are not white space. */
  ghost predicate Disjoint(u: Unicode) { forall r :: Stays(u, r) ==> !u.space(r) }

  /** The last character of clean text. */
  lemma {:induction false} TidyLast(u: Unicode, s: Bytes, n: nat)
    requires Tidy(u, s, n) && s != []
    ensures LastWidth(s) > 0 && Stays(u, LastRune(s).0)
  {
    hide Stays, Width, LastWidth, DecodeRune;
    var w := Width(s);
    if s[w..] == [] {
      AddEmpty(s);
      OnlyCharacter(s);
    } else {
      TidyLast(u, s[w..], n + w);
      LastOfTail(s, w);
    }
  }

  /** Bytes that continue a character start none, so a character has one width seen from its end. */
  lemma OnlyCharacter(s: Bytes)
    requires s != [] && Width(s) == |s|
    ensures LastWidth(s) == |s| && s[|s| - LastWidth(s)..] == s
  {
    hide Width;
    AddEmpty(s);
    NoShorterEnd(s, 1);
    NoShorterEnd(s, 2);
    NoShorterEnd(s, 3);
  }

  lemma NoShorterEnd(s: Bytes, k: nat)
    requires s != [] && Width(s) == |s| && k > 0
    ensures k < |s| ==> !EndsIn(s, k)
  {
    hide Width;
    if k < |s| {
      Trails(s, |s| - k);
      Startless(s[|s| - k..]);
    }
  }

  lemma Trails(s: Bytes, i: nat)
    requires s != [] && Width(s) == |s| && 0 < i < |s|
    ensures Continuation(s[i])
  {
  }

  lemma Startless(t: Bytes)
    requires t != [] && Continuation(t[0])
    ensures Width(t) == 0
  {
  }

  lemma EndsInTail(s: Bytes, w: nat, k: nat)
    requires w + k <= |s| && k > 0
    ensures EndsIn(s, k) <==> EndsIn(s[w..], k)
    ensures s[|s| - k..] == s[w..][|s| - w - k..]
  {
    hide Width;
    DropDrop(s, w, |s| - w - k);
  }

  lemma LastOfTail(s: Bytes, w: nat)
    requires w < |s| && LastWidth(s[w..]) > 0
    ensures LastWidth(s) == LastWidth(s[w..]) && s[|s| - LastWidth(s)..] == s[w..][|s| - w - LastWidth(s)..]
  {
    hide EndsIn;
    var m := LastWidth(s[w..]);
    SameEnds(s, w, 1, m);
    SameEnds(s, w, 2, m);
    SameEnds(s, w, 3, m);
    SameEnds(s, w, 4, m);
    EndsInTail(s, w, m);
  }

  lemma SameEnds(s: Bytes, w: nat, k: nat, m: nat)
    requires w + m <= |s| && k > 0
    ensures k <= m ==> (EndsIn(s, k) <==> EndsIn(s[w..], k))
  {
    hide EndsIn;
    if k <= m {
      EndsInTail(s, w, k);
    }
  }

  lemma TidyKeepsTrim(u: Unicode, s: Bytes)
    requires Tidy(u, s, 0) && Disjoint(u)
    ensures TrimSpace(u, s) == s
  {
    hide Width, DecodeRune, LastWidth, Stays, FirstRune, LastRune;
    if s != [] {
      TidyHead(u, s);
      TidyLast(u, s, 0);
    }
  }

  /** The result is well-formed text of letters, digits and marks, at most three bytes over the
      bound: the character that reaches it is written whole. */
  lemma MetricValueIsTidy(u: Unicode, value: Bytes, fallback: Bytes)
    requires fallback != [] && Tidy(u, fallback, 0)
    ensures var r := MetricValue(u, value, fallback);
      r != [] && Tidy(u, r, 0) && Valid(r) && |r| <= MAX_VALUE + 3
  {
    hide TrimSpace, Tidy, Cleaned;
    CleanedIsTidy(u, TrimSpace(u, value), 0);
    TidyBounds(u, MetricValue(u, value, fallback), 0);
  }

  /** No character of the text begins before byte n and ends behind it. */
  predicate BreaksAt(s: Bytes, n: nat) { |s| <= n || Valid(s[..n]) }

  lemma WrittenWidth(u: Unicode, r: int)
    requires Scalar(r) && Written(u, r) != []
    ensures Width(Written(u, r)) == |Written(u, r)|
  {
    hide Written, Width;
    WrittenStays(u, r, []);
    AddEmpty(Written(u, r));
  }

  /** A character is well formed only as a whole. */
  lemma PartOfCharacter(e: Bytes, n: nat)
    requires e != [] && Width(e) == |e| && 0 < n <= |e|
    ensures Valid(e[..n]) <==> n == |e|
  {
    var part := e[..n];
    assert part[0] == e[0];
    if n == |e| {
      AddEmpty(e);
      assert e[|e|..] == [];
    } else {
      assert Width(part) == 0;
    }
  }

  /** A break behind the first character is a break in the rest. */
  lemma BreakBehind(e: Bytes, rest: Bytes, n: nat)
    requires Valid(e) && |e| <= n
    ensures BreaksAt(e + rest, n) <==> BreaksAt(rest, n - |e|)
  {
    hide Valid;
    if |e + rest| > n {
      assert (e + rest)[..n] == e + rest[..n - |e|];
      ValidConcat(e, rest[..n - |e|]);
    }
  }

  lemma BreakWithin(e: Bytes, rest: Bytes, n: nat)
    requires e != [] && Width(e) == |e| && 0 < n < |e|
    ensures !BreaksAt(e + rest, n)
  {
    hide Valid, Width;
    assert (e + rest)[..n] == e[..n];
    PartOfCharacter(e, n);
  }

  /** Writing stops with the character that reaches the bound, so the bound is kept exactly when
      no character lies across it. */
  lemma {:induction false} BoundKept(u: Unicode, s: Bytes, n: nat)
    requires n < MAX_VALUE
    ensures n + |Cleaned(u, s, n)| <= MAX_VALUE <==> BreaksAt(AllWritten(u, s), MAX_VALUE - n)
    ensures Cleaned(u, s, n) == [] <==> AllWritten(u, s) == []
  {
    hide Written, FirstRune, Valid, Width, BreaksAt;
    if s == [] {
      NothingBreaks(MAX_VALUE - n);
    } else {
      var e, t := Written(u, FirstRune(s).0), s[FirstRune(s).1..];
      var rest := AllWritten(u, t);
      if e == [] {
        AddEmpty(rest);
        AddEmpty(Cleaned(u, t, n));
        BoundKept(u, t, n);
      } else {
        WrittenWidth(u, FirstRune(s).0);
        CharacterValid(e);
        if n + |e| < MAX_VALUE {
          BoundKept(u, t, n + |e|);
          BreakBehind(e, rest, MAX_VALUE - n);
        } else if n + |e| == MAX_VALUE {
          BreakBehind(e, rest, MAX_VALUE - n);
          BreaksAtStart(rest);
        } else {
          BreakWithin(e, rest, MAX_VALUE - n);
        }
      }
    }
  }

  lemma NothingBreaks(n: nat)
    ensures BreaksAt([], n)
  {
  }

  lemma BreaksAtStart(s: Bytes)
    ensures BreaksAt(s, 0)
  {
  }

  lemma CharacterValid(e: Bytes)
    requires e != [] && Width(e) == |e|
    ensures Valid(e)
  {
    hide Valid, Width;
    PartOfCharacter(e, |e|);
    AddEmpty(e);
  }

  /** The metric value keeps the bound of 80 bytes exactly when no kept character lies across
      byte 80 or, when nothing is kept, the fallback keeps it. */
  lemma BoundHoldsExactly(u: Unicode, value: Bytes, fallback: Bytes)
    ensures var kept := AllWritten(u, TrimSpace(u, value));
      |MetricValue(u, value, fallback)| <= MAX_VALUE <==>
        if kept == [] then |fallback| <= MAX_VALUE else BreaksAt(kept, MAX_VALUE)
  {
    hide TrimSpace, AllWritten, Cleaned, BreaksAt;
    BoundKept(u, TrimSpace(u, value), 0);
  }

  ghost predicate LatinLetters(u: Unicode) { forall r :: 'a' as int <= r <= 'z' as int ==> u.letter(r) }

  lemma {:induction false} LettersAreTidy(u: Unicode, s: Bytes, n: nat)
    requires LatinLetters(u) && n + |s| <= MAX_VALUE && forall i :: 0 <= i < |s| ==> 'a' <= s[i] <= 'z'
    ensures Tidy(u, s, n)
  {
    if s != [] {
      LettersAreTidy(u, s[1..], n + 1);
    }
  }

  /** Cleaning twice is cleaning once, so a name cleaned for a span and cleaned again for a
      metric is the same name. */
  lemma CleaningIsIdempotent(u: Unicode, value: Bytes, fallback: Bytes, other: Bytes)
    requires Disjoint(u) && fallback != [] && Tidy(u, fallback, 0)
    ensures var r := MetricValue(u, value, fallback); MetricValue(u, r, other) == r
  {
    hide TrimSpace, Tidy, Cleaned, Disjoint;
    MetricValueIsTidy(u, value, fallback);
    var r := MetricValue(u, value, fallback);
    TidyKeepsTrim(u, r);
    TidyIsFixed(u, r, 0);
  }

  lemma LetterBefore(u: Unicode, rest: Bytes, n: nat)
    requires u.letter('a' as int) && n < MAX_VALUE && Tidy(u, rest, n + 1)
    ensures Tidy(u, ['a'] + rest, n)
  {
    var s := ['a'] + rest;
    DropTake(['a'], rest);
    assert s[0] == 'a';
    assert Width(s) == 1 && DecodeRune(s) == 'a' as int;
  }

  lemma {:induction false} LettersThen(u: Unicode, n: nat, tail: Bytes, from: nat)
    requires u.letter('a' as int) && from + n < MAX_VALUE && Tidy(u, tail, from + n)
    ensures Tidy(u, Repeat('a', n) + tail, from)
  {
    hide Tidy;
    if n == 0 {
      AddEmpty(tail);
    } else {
      LettersThen(u, n - 1, tail, from + 1);
      LetterBefore(u, Repeat('a', n - 1) + tail, from);
      Assoc(['a'], Repeat('a', n - 1), tail);
    }
  }

  /** The bound of 80 bytes is exceeded by a letter of four bytes that begins at its last byte. */
  lemma BoundIsCrossed(u: Unicode)
    requires Disjoint(u) && u.letter('a' as int) && u.letter(0x10400)
    ensures var name := Repeat('a', 79) + EncodeRune(0x10400);
      |name| == 83 && MetricValue(u, name, "unknown") == name
  {
    hide TrimSpace, Cleaned, Disjoint, Repeat;
    var e := EncodeRune(0x10400);
    WideLetter(u);
    LettersThen(u, 79, e, 0);
    TidyKeepsTrim(u, Repeat('a', 79) + e);
    TidyIsFixed(u, Repeat('a', 79) + e, 0);
  }

  lemma WideLetter(u: Unicode)
    requires u.letter(0x10400)
    ensures |EncodeRune(0x10400)| == 4 && Tidy(u, EncodeRune(0x10400), 79)
  {
    var e := EncodeRune(0x10400);
    EncodeDecodes(0x10400, []);
    AddEmpty(e);
    assert e[4..] == [];
  }

  // ----- character by character

  /** What is recorded begins as what all characters would write, and is all of it below the bound. */
  lemma {:induction false} CleanedIsPrefix(u: Unicode, s: Bytes, n: nat)
    requires n < MAX_VALUE
    ensures Cleaned(u, s, n) <= AllWritten(u, s)
    ensures n + |Cleaned(u, s, n)| < MAX_VALUE ==> Cleaned(u, s, n) == AllWritten(u, s)
  {
    hide Written, FirstRune;
    if s != [] {
      var e, t := Written(u, FirstRune(s).0), s[FirstRune(s).1..];
      if n + |e| < MAX_VALUE {
        CleanedIsPrefix(u, t, n + |e|);
      }
    }
  }

  /** Characters are written one after the other. */
  lemma {:induction false} AllWrittenConcat(u: Unicode, a: Bytes, b: Bytes)
    requires Valid(a)
    ensures AllWritten(u, a + b) == AllWritten(u, a) + AllWritten(u, b)
  {
    hide Width, DecodeRune, Written;
    if a == [] {
      AddEmpty(b);
      AddEmpty(AllWritten(u, b));
    } else {
      var w := Width(a);
      FirstOfConcat(a, b);
      AllWrittenConcat(u, a[w..], b);
      assert (a + b)[w..] == a[w..] + b;
      Assoc(Written(u, FirstRune(a).0), AllWritten(u, a[w..]), AllWritten(u, b));
    }
  }

  lemma FirstOfConcat(a: Bytes, b: Bytes)
    requires a != [] && Valid(a)
    ensures 0 < Width(a) <= |a| && Valid(a[Width(a)..])
    ensures FirstRune(a) == FirstRune(a + b) && FirstRune(a).1 == Width(a)
  {
    var w := Width(a);
    WidthOfConcat(a, b);
    assert forall i :: 0 <= i < w ==> (a + b)[i] == a[i];
  }

  lemma WidthOfConcat(a: Bytes, b: Bytes)
    requires Width(a) > 0
    ensures Width(a + b) == Width(a) && Width(a) <= |a|
  {
    assert forall i :: 0 <= i < |a| ==> (a + b)[i] == a[i];
  }

  /** One character is kept when it is a letter, a digit or one of four marks, becomes an underscore
      when it is white space, and is dropped otherwise. */
  lemma CharacterIsWritten(u: Unicode, s: Bytes)
    requires s != [] && Width(s) == |s|
    ensures AllWritten(u, s) ==
              if u.letter(DecodeRune(s)) || s in {"_", "-", ".", "/"} then s
              else if u.space(DecodeRune(s)) then "_" else ""
  {
    hide EncodeRune;
    WidthDecodes(s);
    MarkIsText(s);
    AddEmpty(s);
    AddEmpty(Written(u, DecodeRune(s)));
    assert s[|s|..] == [];
  }

  lemma MarkIsText(s: Bytes)
    requires s != [] && Width(s) == |s|
    ensures Mark(DecodeRune(s)) <==> s in {"_", "-", ".", "/"}
  {
    WidthDecodes(s);
    if Mark(DecodeRune(s)) {
      assert |EncodeRune(DecodeRune(s))| == 1;
      assert s == EncodeRune(DecodeRune(s));
    }
  }

  lemma {:induction false} TrimStartDrops(u: Unicode, s: Bytes)
    ensures var t := TrimStart(u, s);
      && |t| <= |s| && t == s[|s| - |t|..] && (t != [] ==> !u.space(FirstRune(t).0))
      && (s != [] && !u.space(FirstRune(s).0) ==> t == s)
  {
    hide FirstRune;
    if s != [] && u.space(FirstRune(s).0) {
      TrimStartDrops(u, s[FirstRune(s).1..]);
    } else {
      AddEmpty(s);
    }
  }

  lemma {:induction false} TrimEndDrops(u: Unicode, s: Bytes)
    ensures var t := TrimEnd(u, s);
      && t <= s && (t != [] ==> !u.space(LastRune(t).0))
      && (s != [] && !u.space(LastRune(s).0) ==> t == s)
  {
    hide LastRune;
    if s != [] && u.space(LastRune(s).0) {
      TrimEndDrops(u, s[..|s| - LastRune(s).1]);
    }
  }

  /** Trimming begins at a character that is not white space, ends with one, and leaves alone a text
      that does both. */
  lemma TrimSpaceDrops(u: Unicode, s: Bytes)
    ensures var t := TrimSpace(u, s);
      && (t != [] ==> !u.space(LastRune(t).0))
      && (exists i :: 0 <= i <= |s| && t <= s[i..] && (s[i..] != [] ==> !u.space(FirstRune(s[i..]).0)))
      && (s != [] && !u.space(FirstRune(s).0) && !u.space(LastRune(s).0) ==> t == s)
  {
    hide FirstRune, LastRune, TrimStart, TrimEnd;
    var start := TrimStart(u, s);
    TrimStartDrops(u, s);
    TrimEndDrops(u, start);
    assert TrimSpace(u, s) <= s[|s| - |start|..];
  }
}
