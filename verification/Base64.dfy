/** Unpadded base64url (RFC 4648, section 5), as encoding/base64 writes and reads it. */
module Base64 {
  import opened Bytes
  import opened Utf8

  predicate Octets(s: Bytes) { forall i :: 0 <= i < |s| ==> s[i] as int < 256 }

  function Symbol(n: nat): byte
    requires n < 64
  {
    if n < 26 then ('A' as int + n) as char
    else if n < 52 then ('a' as int + n - 26) as char
    else if n < 62 then ('0' as int + n - 52) as char
    else if n == 62 then '-' else '_'
  }

  function ValueOf(c: byte): (v: Option<nat>)
    ensures v.Some? ==> v.value < 64
  {
    if 'A' <= c <= 'Z' then Some(c as int - 'A' as int)
    else if 'a' <= c <= 'z' then Some(c as int - 'a' as int + 26)
    else if '0' <= c <= '9' then Some(c as int - '0' as int + 52)
    else if c == '-' then Some(62)
    else if c == '_' then Some(63)
    else None
  }

  function Encode(raw: Bytes): Bytes
    requires Octets(raw)
  {
    if raw == [] then []
    else
      var a := raw[0] as int;
      if |raw| == 1 then [Symbol(a / 4), Symbol(a % 4 * 16)]
      else
        var b := raw[1] as int;
        if |raw| == 2 then [Symbol(a / 4), Symbol(a % 4 * 16 + b / 16), Symbol(b % 16 * 4)]
        else
          var c := raw[2] as int;
          [Symbol(a / 4), Symbol(a % 4 * 16 + b / 16), Symbol(b % 16 * 4 + c / 64), Symbol(c % 64)] + Encode(raw[3..])
  }

  /** Line breaks inside a token are ignored. */
  function Strip(t: Bytes): Bytes
  {
    if t == [] then []
    else (if t[0] == '\n' || t[0] == '\r' then [] else [t[0]]) + Strip(t[1..])
  }

  function DecodeGroups(t: Bytes): Option<Bytes>
  {
    if t == [] then Some([])
    else if |t| == 1 then None
    else
      match (ValueOf(t[0]), ValueOf(t[1]))
      case (Some(v), Some(w)) =>
        var a := (v * 4 + w / 16) as char;
        if |t| == 2 then Some([a])
        else
          (match ValueOf(t[2])
           case None => None
           case Some(x) =>
             var b := (w % 16 * 16 + x / 4) as char;
             if |t| == 3 then Some([a, b])
             else
               match (ValueOf(t[3]), DecodeGroups(t[4..]))
               case (Some(y), Some(rest)) => Some([a, b, (x % 4 * 64 + y) as char] + rest)
               case _ => None)
      case _ => None
  }

  function Decode(t: Bytes): Option<Bytes> { DecodeGroups(Strip(t)) }

  lemma SymbolValue(n: nat)
    requires n < 64
    ensures ValueOf(Symbol(n)) == Some(n) && Symbol(n) != '\n' && Symbol(n) != '\r'
  {
  }

  predicate Symbols(t: Bytes) { forall i :: 0 <= i < |t| ==> ValueOf(t[i]).Some? }

  lemma {:induction false} StripSymbols(t: Bytes)
    requires Symbols(t)
    ensures Strip(t) == t
  {
    if t != [] {
      StripSymbols(t[1..]);
      assert t == [t[0]] + t[1..];
    }
  }

  /** Six bits a symbol, the last one filled up. */
  lemma {:induction false} EncodedLength(raw: Bytes)
    requires Octets(raw)
    ensures |Encode(raw)| == (8 * |raw| + 5) / 6 && Symbols(Encode(raw))
  {
    hide ValueOf, Symbol;
    SymbolsAre();
    if |raw| >= 3 {
      EncodedLength(raw[3..]);
    }
  }

  lemma SymbolsAre()
    ensures forall n: nat :: n < 64 ==> ValueOf(Symbol(n)) == Some(n)
  {
    forall n: nat | n < 64
      ensures ValueOf(Symbol(n)) == Some(n)
    {
      SymbolValue(n);
    }
  }

  /** Six-bit values of three octets. */
  lemma SixBits(a: int, b: int, c: int)
    requires 0 <= a < 256 && 0 <= b < 256 && 0 <= c < 256
    ensures a / 4 < 64 && a % 4 * 16 + b / 16 < 64 && b % 16 * 4 + c / 64 < 64 && c % 64 < 64
    ensures a / 4 * 4 + (a % 4 * 16 + b / 16) / 16 == a
    ensures (a % 4 * 16 + b / 16) % 16 * 16 + (b % 16 * 4 + c / 64) / 4 == b
    ensures (b % 16 * 4 + c / 64) % 4 * 64 + c % 64 == c
  {
  }

  /** A group of four symbols, and the shorter groups that may end a token. */
  lemma FourSymbols(u: nat, v: nat, w: nat, x: nat, t: Bytes)
    requires u < 64 && v < 64 && w < 64 && x < 64 && DecodeGroups(t).Some?
    ensures DecodeGroups([Symbol(u), Symbol(v), Symbol(w), Symbol(x)] + t)
         == Some([(u * 4 + v / 16) as char, (v % 16 * 16 + w / 4) as char, (w % 4 * 64 + x) as char]
           + DecodeGroups(t).value)
  {
    hide ValueOf, Symbol;
    SymbolValue(u);
    SymbolValue(v);
    SymbolValue(w);
    SymbolValue(x);
    DropTake([Symbol(u), Symbol(v), Symbol(w), Symbol(x)], t);
  }

  lemma ThreeSymbols(u: nat, v: nat, w: nat)
    requires u < 64 && v < 64 && w < 64
    ensures DecodeGroups([Symbol(u), Symbol(v), Symbol(w)]) ==
      Some([(u * 4 + v / 16) as char, (v % 16 * 16 + w / 4) as char])
  {
    hide ValueOf, Symbol;
    SymbolValue(u);
    SymbolValue(v);
    SymbolValue(w);
  }

  lemma TwoSymbols(u: nat, v: nat)
    requires u < 64 && v < 64
    ensures DecodeGroups([Symbol(u), Symbol(v)]) == Some([(u * 4 + v / 16) as char])
  {
    hide ValueOf, Symbol;
    SymbolValue(u);
    SymbolValue(v);
  }

  lemma {:induction false} GroupsDecode(raw: Bytes)
    requires Octets(raw)
    ensures DecodeGroups(Encode(raw)) == Some(raw)
  {
    hide DecodeGroups, Encode;
    if |raw| >= 3 {
      GroupsDecode(raw[3..]);
      FullGroup(raw);
    } else {
      LastGroup(raw);
    }
  }

  lemma FullGroup(raw: Bytes)
    requires Octets(raw) && |raw| >= 3 && DecodeGroups(Encode(raw[3..])) == Some(raw[3..])
    ensures DecodeGroups(Encode(raw)) == Some(raw)
  {
    hide Symbol, DecodeGroups, Encode;
    var a, b, c := raw[0] as int, raw[1] as int, raw[2] as int;
    SixBits(a, b, c);
    EncodeGroup(raw);
    GroupDecodes(raw, a / 4, a % 4 * 16 + b / 16, b % 16 * 4 + c / 64, c % 64);
  }

  lemma LastGroup(raw: Bytes)
    requires Octets(raw) && |raw| < 3
    ensures DecodeGroups(Encode(raw)) == Some(raw)
  {
    hide Symbol, DecodeGroups, Encode;
    if |raw| == 2 {
      var a, b := raw[0] as int, raw[1] as int;
      SixBits(a, b, 0);
      EncodePair(raw);
      PairDecodes(raw, a / 4, a % 4 * 16 + b / 16, b % 16 * 4);
    } else if |raw| == 1 {
      SixBits(raw[0] as int, 0, 0);
      EncodeOne(raw);
      OneDecodes(raw, raw[0] as int / 4, raw[0] as int % 4 * 16);
    } else {
      assert raw == [];
      NoSymbols();
    }
  }

  lemma EncodeGroup(raw: Bytes)
    requires Octets(raw) && |raw| >= 3
    ensures var (a, b, c) := (raw[0] as int, raw[1] as int, raw[2] as int);
      Encode(raw) == [Symbol(a / 4), Symbol(a % 4 * 16 + b / 16), Symbol(b % 16 * 4 + c / 64), Symbol(c % 64)]
        + Encode(raw[3..])
  {
    hide Symbol;
  }

  lemma EncodePair(raw: Bytes)
    requires Octets(raw) && |raw| == 2
    ensures var (a, b) := (raw[0] as int, raw[1] as int);
      Encode(raw) == [Symbol(a / 4), Symbol(a % 4 * 16 + b / 16), Symbol(b % 16 * 4)]
  {
    hide Symbol;
  }

  lemma EncodeOne(raw: Bytes)
    requires Octets(raw) && |raw| == 1
    ensures Encode(raw) == [Symbol(raw[0] as int / 4), Symbol(raw[0] as int % 4 * 16)]
  {
    hide Symbol;
  }

  /** Symbols that hold the bits of the first octets give them back. */
  lemma GroupDecodes(raw: Bytes, u: nat, v: nat, w: nat, x: nat)
    requires Octets(raw) && |raw| >= 3 && u < 64 && v < 64 && w < 64 && x < 64
    requires u * 4 + v / 16 == raw[0] as int && v % 16 * 16 + w / 4 == raw[1] as int && w % 4 * 64 + x == raw[2] as int
    requires Encode(raw) == [Symbol(u), Symbol(v), Symbol(w), Symbol(x)] + Encode(raw[3..])
    requires DecodeGroups(Encode(raw[3..])) == Some(raw[3..])
    ensures DecodeGroups(Encode(raw)) == Some(raw)
  {
    hide Symbol, DecodeGroups, Encode;
    FourSymbols(u, v, w, x, Encode(raw[3..]));
    assert raw == [raw[0], raw[1], raw[2]] + raw[3..];
  }

  lemma PairDecodes(raw: Bytes, u: nat, v: nat, w: nat)
    requires Octets(raw) && |raw| == 2 && u < 64 && v < 64 && w < 64
    requires u * 4 + v / 16 == raw[0] as int && v % 16 * 16 + w / 4 == raw[1] as int
    requires Encode(raw) == [Symbol(u), Symbol(v), Symbol(w)]
    ensures DecodeGroups(Encode(raw)) == Some(raw)
  {
    hide Symbol, DecodeGroups, Encode;
    ThreeSymbols(u, v, w);
    assert raw == [raw[0], raw[1]];
  }

  lemma OneDecodes(raw: Bytes, u: nat, v: nat)
    requires Octets(raw) && |raw| == 1 && u < 64 && v < 64 && u * 4 + v / 16 == raw[0] as int
    requires Encode(raw) == [Symbol(u), Symbol(v)]
    ensures DecodeGroups(Encode(raw)) == Some(raw)
  {
    hide Symbol, DecodeGroups, Encode;
    TwoSymbols(u, v);
    assert raw == [raw[0]];
  }

  lemma NoSymbols()
    ensures DecodeGroups(Encode([])) == Some([])
  {
  }

  /** Every octet string comes back from its token. */
  lemma DecodeEncode(raw: Bytes)
    requires Octets(raw)
    ensures Decode(Encode(raw)) == Some(raw)
  {
    EncodedLength(raw);
    StripSymbols(Encode(raw));
    GroupsDecode(raw);
  }

  lemma {:induction false} ValidOctets(s: Bytes)
    requires Valid(s)
    ensures Octets(s)
  {
    if s != [] {
      ValidOctets(s[Width(s)..]);
      assert s == s[..Width(s)] + s[Width(s)..];
    }
  }

  // ----- bit by bit

  /** n characters from this one on. */
  function Letters(first: byte, n: nat): (r: Bytes)
    requires first as int + n < 256
    ensures |r| == n && forall i :: 0 <= i < n ==> r[i] as int == first as int + i
  {
    seq(n, i requires 0 <= i < n => (first as int + i) as char)
  }

  /** The alphabet safe in URLs and file names. */
  const ALPHABET: Bytes := Letters('A', 26) + Letters('a', 26) + Letters('0', 10) + "-_"

  function OctetAt(raw: Bytes, k: nat): int { if k < |raw| then raw[k] as int else 0 }

  /** The six bits of the octet string that begin at bit 6i; zeros follow the last octet. */
  function SixAt(raw: Bytes, i: nat): int
  {
    var pair := OctetAt(raw, 6 * i / 8) * 256 + OctetAt(raw, 6 * i / 8 + 1);
    pair / (if i % 4 == 0 then 1024 else if i % 4 == 1 then 16 else if i % 4 == 2 then 64 else 256) % 64
  }

  lemma SymbolIsLetter(n: nat)
    requires n < 64
    ensures Symbol(n) == ALPHABET[n]
  {
  }

  lemma SixLater(raw: Bytes, i: nat)
    requires |raw| >= 3
    ensures SixAt(raw, i + 4) == SixAt(raw[3..], i)
  {
    hide OctetAt;
    assert 6 * (i + 4) / 8 == 6 * i / 8 + 3;
    OctetLater(raw, 6 * i / 8);
    OctetLater(raw, 6 * i / 8 + 1);
  }

  lemma OctetLater(raw: Bytes, k: nat)
    requires |raw| >= 3
    ensures OctetAt(raw, k + 3) == OctetAt(raw[3..], k)
  {
  }

  lemma FirstSixes(raw: Bytes)
    requires Octets(raw)
    ensures var a, b, c := OctetAt(raw, 0), OctetAt(raw, 1), OctetAt(raw, 2);
      && SixAt(raw, 0) == a / 4 && SixAt(raw, 1) == a % 4 * 16 + b / 16
      && SixAt(raw, 2) == b % 16 * 4 + c / 64 && SixAt(raw, 3) == c % 64
  {
    hide SixAt, OctetAt;
    SixPairs(raw);
    OctetSmall(raw, 0);
    OctetSmall(raw, 1);
    OctetSmall(raw, 2);
    OctetSmall(raw, 3);
    var a, b, c := OctetAt(raw, 0), OctetAt(raw, 1), OctetAt(raw, 2);
    Pairs(a, b);
    Pairs(b, c);
    Pairs(c, OctetAt(raw, 3));
  }

  lemma OctetSmall(raw: Bytes, k: nat)
    requires Octets(raw)
    ensures 0 <= OctetAt(raw, k) < 256
  {
  }

  /** The pairs of octets that hold the first four symbols. */
  lemma SixPairs(raw: Bytes)
    ensures SixAt(raw, 0) == (OctetAt(raw, 0) * 256 + OctetAt(raw, 1)) / 1024 % 64
    ensures SixAt(raw, 1) == (OctetAt(raw, 0) * 256 + OctetAt(raw, 1)) / 16 % 64
    ensures SixAt(raw, 2) == (OctetAt(raw, 1) * 256 + OctetAt(raw, 2)) / 64 % 64
    ensures SixAt(raw, 3) == (OctetAt(raw, 2) * 256 + OctetAt(raw, 3)) / 256 % 64
  {
    hide OctetAt;
  }

  lemma Pairs(a: int, b: int)
    requires 0 <= a < 256 && 0 <= b < 256
    ensures (a * 256 + b) / 1024 % 64 == a / 4 && (a * 256 + b) / 16 % 64 == a % 4 * 16 + b / 16
    ensures (a * 256 + b) / 64 % 64 == a % 16 * 4 + b / 64 && (a * 256 + b) / 256 % 64 == a % 64
  {
    var n := a * 256 + b;
    assert n == a / 4 * 1024 + (a % 4 * 256 + b);
    assert n / 1024 == a / 4;
    BySixteen(a, b);
    BySixtyFour(a, b);
    assert n / 256 == a;
  }

  lemma BySixteen(a: int, b: int)
    requires 0 <= a < 256 && 0 <= b < 256
    ensures (a * 256 + b) / 16 % 64 == a % 4 * 16 + b / 16
  {
    var n := a * 256 + b;
    assert n == (a * 16 + b / 16) * 16 + b % 16;
    assert n / 16 == a * 16 + b / 16;
    assert a * 16 + b / 16 == a / 4 * 64 + (a % 4 * 16 + b / 16);
  }

  lemma BySixtyFour(a: int, b: int)
    requires 0 <= a < 256 && 0 <= b < 256
    ensures (a * 256 + b) / 64 % 64 == a % 16 * 4 + b / 64
  {
    var n := a * 256 + b;
    assert n == (a * 4 + b / 64) * 64 + b % 64;
    assert n / 64 == a * 4 + b / 64;
    assert a * 4 + b / 64 == a / 16 * 64 + (a % 16 * 4 + b / 64);
  }

  /** Each symbol of a token is the letter of the alphabet for its six bits. */
  lemma {:induction false} EncodesBits(raw: Bytes, i: nat)
    requires Octets(raw) && i < |Encode(raw)|
    ensures 0 <= SixAt(raw, i) < 64 && Encode(raw)[i] == ALPHABET[SixAt(raw, i)]
  {
    hide Symbol, SixAt;
    FirstSixes(raw);
    if i < 4 {
      SixIsSmall(raw, i);
      SymbolIsLetter(SixAt(raw, i));
    } else {
      SixLater(raw, i - 4);
      EncodesBits(raw[3..], i - 4);
    }
  }

  lemma SixIsSmall(raw: Bytes, i: nat)
    ensures 0 <= SixAt(raw, i) < 64
  {
  }
}
