/** UTF-8 as RFC 3629 defines it (sections 3 and 4). */
module Utf8 {
  import opened Bytes

  /** Bytes that may follow a lead byte. */
  predicate Continuation(c: byte) { 0x80 <= c as int <= 0xBF }

  /** Length announced by a lead byte; 0 for a byte that starts no character. */
  function Announced(lead: byte): (n: nat)
    ensures n <= 4
  {
    var b := lead as int;
    if b < 0x80 then 1
    else if 0xC2 <= b <= 0xDF then 2
    else if 0xE0 <= b <= 0xEF then 3
    else if 0xF0 <= b <= 0xF4 then 4
    else 0
  }

  /** The second byte excludes overlong forms, surrogates and values above U+10FFFF. */
  predicate Second(lead: byte, c: byte) {
    var low := if lead as int == 0xE0 then 0xA0 else if lead as int == 0xF0 then 0x90 else 0x80;
    var high := if lead as int == 0xED then 0x9F else if lead as int == 0xF4 then 0x8F else 0xBF;
    low <= c as int <= high
  }

  /** Length of the well-formed character at the head of s, 0 when there is none. */
  function Width(s: Bytes): (w: nat)
    ensures w <= |s| && w <= 4
  {
    if s == [] then 0
    else
      var n := Announced(s[0]);
      if n <= |s| && (n < 2 || Second(s[0], s[1])) && (n < 3 || Continuation(s[2])) && (n < 4 || Continuation(s[3]))
      then n else 0
  }

  predicate Valid(s: Bytes) {
    s == [] || (Width(s) > 0 && Valid(s[Width(s)..]))
  }

  /** A Unicode scalar value. */
  predicate Scalar(cp: int) { 0 <= cp < 0xD800 || 0xE000 <= cp <= 0x10FFFF }

  function EncodeRune(cp: int): (s: Bytes)
    requires Scalar(cp)
    ensures 1 <= |s| <= 4
  {
    if cp < 0x80 then [cp as char]
    else if cp < 0x800 then [(0xC0 + cp / 0x40) as char, (0x80 + cp % 0x40) as char]
    else if cp < 0x10000 then
      [(0xE0 + cp / 0x1000) as char, (0x80 + cp / 0x40 % 0x40) as char, (0x80 + cp % 0x40) as char]
    else
      [(0xF0 + cp / 0x40000) as char, (0x80 + cp / 0x1000 % 0x40) as char,
       (0x80 + cp / 0x40 % 0x40) as char, (0x80 + cp % 0x40) as char]
  }

  function DecodeRune(s: Bytes): (cp: int)
    requires Width(s) > 0
  {
    var w := Width(s);
    if w == 1 then s[0] as int
    else if w == 2 then (s[0] as int - 0xC0) * 0x40 + (s[1] as int - 0x80)
    else if w == 3 then (s[0] as int - 0xE0) * 0x1000 + (s[1] as int - 0x80) * 0x40 + (s[2] as int - 0x80)
    else (s[0] as int - 0xF0) * 0x40000 + (s[1] as int - 0x80) * 0x1000
         + (s[2] as int - 0x80) * 0x40 + (s[3] as int - 0x80)
  }

  /** Every well-formed head is the encoding of exactly the scalar it decodes to. */
  lemma WidthDecodes(s: Bytes)
    requires Width(s) > 0
    ensures Scalar(DecodeRune(s)) && EncodeRune(DecodeRune(s)) == s[..Width(s)]
  {
    if Width(s) == 3 {
      WidthDecodesThree(s);
    } else if Width(s) == 4 {
      WidthDecodesFour(s);
    }
  }

  lemma WidthDecodesThree(s: Bytes)
    requires Width(s) == 3
    ensures Scalar(DecodeRune(s)) && EncodeRune(DecodeRune(s)) == s[..3]
  {
    ThreeBytes(s[0] as int - 0xE0, s[1] as int - 0x80, s[2] as int - 0x80);
  }

  lemma WidthDecodesFour(s: Bytes)
    requires Width(s) == 4
    ensures Scalar(DecodeRune(s)) && EncodeRune(DecodeRune(s)) == s[..4]
  {
    FourBytes(s[0] as int - 0xF0, s[1] as int - 0x80, s[2] as int - 0x80, s[3] as int - 0x80);
  }

  lemma ThreeBytes(a: int, b: int, c: int)
    requires 0 <= a < 16 && 0 <= b < 64 && 0 <= c < 64
    ensures var cp := a * 0x1000 + b * 0x40 + c;
      cp / 0x1000 == a && cp / 0x40 % 0x40 == b && cp % 0x40 == c
  {
    assert (a * 0x1000 + b * 0x40 + c) / 0x40 == a * 0x40 + b;
  }

  lemma FourBytes(a: int, b: int, c: int, d: int)
    requires 0 <= a < 8 && 0 <= b < 64 && 0 <= c < 64 && 0 <= d < 64
    ensures var cp := a * 0x40000 + b * 0x1000 + c * 0x40 + d;
      cp / 0x40000 == a && cp / 0x1000 % 0x40 == b && cp / 0x40 % 0x40 == c && cp % 0x40 == d
  {
    var cp := a * 0x40000 + b * 0x1000 + c * 0x40 + d;
    assert cp / 0x40 == a * 0x1000 + b * 0x40 + c;
    assert cp / 0x1000 == a * 0x40 + b;
  }

  /** The bytes that make the lead byte's promise good. */
  predicate Trailing(e: Bytes)
    requires e != []
  {
    && Announced(e[0]) == |e|
    && (|e| > 1 ==> Second(e[0], e[1]))
    && (|e| > 2 ==> Continuation(e[2]))
    && (|e| > 3 ==> Continuation(e[3]))
  }

  lemma EncodeThree(cp: int)
    requires Scalar(cp) && 0x800 <= cp < 0x10000
    ensures Trailing(EncodeRune(cp))
  {
    var a, b := cp / 0x1000, cp / 0x40 % 0x40;
    assert cp / 0x40 == a * 0x40 + b;
  }

  lemma EncodeFour(cp: int)
    requires Scalar(cp) && 0x10000 <= cp
    ensures Trailing(EncodeRune(cp))
  {
    var a, b, c := cp / 0x40000, cp / 0x1000 % 0x40, cp / 0x40 % 0x40;
    assert cp / 0x1000 == a * 0x40 + b;
    assert cp / 0x40 == cp / 0x1000 * 0x40 + c;
  }

  lemma EncodeBytes(cp: int)
    requires Scalar(cp)
    ensures Trailing(EncodeRune(cp))
  {
    if cp >= 0x10000 {
      EncodeFour(cp);
    } else if cp >= 0x800 {
      EncodeThree(cp);
    }
  }

  lemma EncodeWidth(cp: int, rest: Bytes)
    requires Scalar(cp)
    ensures Width(EncodeRune(cp) + rest) == |EncodeRune(cp)|
  {
    hide EncodeRune, Announced, Second, Continuation;
    EncodeBytes(cp);
    var e := EncodeRune(cp);
    assert forall i :: 0 <= i < |e| ==> (e + rest)[i] == e[i];
  }

  /** A scalar value from its groups of six bits. */
  lemma Groups(cp: int)
    requires 0 <= cp
    ensures cp == cp / 0x40 * 0x40 + cp % 0x40
    ensures cp / 0x40 == cp / 0x1000 * 0x40 + cp / 0x40 % 0x40
    ensures cp / 0x1000 == cp / 0x40000 * 0x40 + cp / 0x1000 % 0x40
  {
    assert cp / 0x1000 == cp / 0x40 / 0x40;
    assert cp / 0x40000 == cp / 0x1000 / 0x40;
  }

  /** Encoding a scalar gives a well-formed character that decodes back. */
  lemma EncodeDecodes(cp: int, rest: Bytes)
    requires Scalar(cp)
    ensures Width(EncodeRune(cp) + rest) == |EncodeRune(cp)|
    ensures DecodeRune(EncodeRune(cp) + rest) == cp
  {
    hide Width;
    EncodeWidth(cp, rest);
    var e := EncodeRune(cp);
    assert forall i :: 0 <= i < |e| ==> (e + rest)[i] == e[i];
    Groups(cp);
  }

  /** Width looks only at the character itself. */
  lemma WidthPrefix(s: Bytes, rest: Bytes)
    requires Width(s) > 0
    ensures Width(s[..Width(s)] + rest) == Width(s)
  {
  }

  lemma {:induction false} ValidConcat(a: Bytes, b: Bytes)
    requires Valid(a)
    ensures Valid(b) <==> Valid(a + b)
  {
    if a == [] {
      assert a + b == b;
    } else {
      var w := Width(a);
      WidthPrefix(a, a[w..] + b);
      assert a + b == a[..w] + (a[w..] + b);
      assert (a + b)[w..] == a[w..] + b;
      ValidConcat(a[w..], b);
    }
  }

  lemma ValidHead(s: Bytes)
    requires Width(s) > 0
    ensures Valid(s[..Width(s)])
  {
    var w := Width(s);
    WidthPrefix(s, []);
    assert s[..w] + [] == s[..w];
    assert s[..w][w..] == [];
  }

  lemma {:induction false} AsciiValid(s: Bytes)
    requires forall i :: 0 <= i < |s| ==> s[i] as int < 0x80
    ensures Valid(s)
  {
    if s != [] {
      AsciiValid(s[1..]);
    }
  }
}
