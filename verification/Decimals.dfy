/** Decimal spellings of integers, as strconv writes and reads them. */
module Decimals {
  import opened Bytes

  function Digit(n: nat): byte
    requires n < 10
  {
    ('0' as int + n) as char
  }

  function Decimal(n: nat): Bytes
  {
    if n < 10 then [Digit(n)] else Decimal(n / 10) + [Digit(n % 10)]
  }

  /** strconv.FormatInt in base ten. */
  function FormatInt(n: int): Bytes { if n < 0 then "-" + Decimal(-n) else Decimal(n) }

  predicate Digits(s: Bytes) { s != [] && forall i :: 0 <= i < |s| ==> '0' <= s[i] <= '9' }

  function Number(s: Bytes): nat
    requires Digits(s)
  {
    var digit := s[|s| - 1] as int - '0' as int;
    if |s| == 1 then digit
    else
      assert forall i :: 0 <= i < |s| - 1 ==> s[..|s| - 1][i] == s[i];
      Number(s[..|s| - 1]) * 10 + digit
  }

  const MAX_INT64: int := 0x7FFF_FFFF_FFFF_FFFF

  predicate Int64(n: int) { -MAX_INT64 - 1 <= n <= MAX_INT64 }

  /** strconv.ParseInt in base ten, 64 bits: an optional sign, digits, in range. */
  function ParseInt(s: Bytes): (r: Option<int>)
    ensures r.Some? ==> Int64(r.value)
  {
    var signed := s != [] && (s[0] == '+' || s[0] == '-');
    var digits := if signed then s[1..] else s;
    if !Digits(digits) then None
    else
      var n := Number(digits);
      var v: int := if signed && s[0] == '-' then 0 - n else n;
      if Int64(v) then Some(v) else None
  }

  lemma {:induction false} NumberOfDecimal(n: nat)
    ensures Digits(Decimal(n)) && Number(Decimal(n)) == n
    ensures n < 10 ==> |Decimal(n)| == 1
    ensures n > 0 ==> Decimal(n)[0] != '0'
  {
    if n >= 10 {
      NumberOfDecimal(n / 10);
      var s := Decimal(n / 10) + [Digit(n % 10)];
      assert s[..|s| - 1] == Decimal(n / 10);
    }
  }

  /** What is written for a 64-bit integer is read back as it. */
  lemma ParseFormat(n: int)
    requires Int64(n)
    ensures ParseInt(FormatInt(n)) == Some(n)
  {
    NumberOfDecimal(if n < 0 then -n else n);
    if n < 0 {
      assert FormatInt(n)[1..] == Decimal(-n);
    }
  }
}
