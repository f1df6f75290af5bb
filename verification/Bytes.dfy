/** Go strings are byte sequences. A byte is written as the character with its code,
    so ASCII text can be a string literal; no result depends on codes staying below 256. */
module Bytes {
  type byte = char
  type Bytes = seq<byte>

  /** White space, of which only the ASCII characters are distinguished. */
  predicate TextSpace(c: byte) { c == ' ' || 9 <= c as int <= 13 }

  predicate LowerHex(c: byte) { '0' <= c <= '9' || 'a' <= c <= 'f' }

  datatype Option<+T> = None | Some(value: T)

  /** n times the same byte. */
  function Repeat(c: byte, n: nat): (r: Bytes)
    ensures |r| == n && forall i :: 0 <= i < n ==> r[i] == c
  {
    if n == 0 then [] else [c] + Repeat(c, n - 1)
  }

  lemma Assoc<T>(a: seq<T>, b: seq<T>, c: seq<T>)
    ensures (a + b) + c == a + (b + c)
  {
  }

  lemma DropTake<T>(a: seq<T>, b: seq<T>)
    ensures (a + b)[|a|..] == b && (a + b)[..|a|] == a
  {
  }

  lemma Split<T>(s: seq<T>, n: nat)
    requires n <= |s|
    ensures s == s[..n] + s[n..]
  {
  }

  lemma DropDrop<T>(s: seq<T>, n: nat, m: nat)
    requires n + m <= |s|
    ensures s[n..][m..] == s[n + m..] && s[n..][..m] == s[n..n + m] && s[..n] + s[n..][..m] == s[..n + m]
  {
  }

  lemma AddEmpty<T>(s: seq<T>)
    ensures s + [] == s && [] + s == s && s[..|s|] == s && s[0..] == s
  {
  }

  /** The bytewise order that Go's string comparison and slices.Sort use. */
  predicate Less(a: Bytes, b: Bytes) {
    |b| > 0 && (|a| == 0 || a[0] < b[0] || (a[0] == b[0] && Less(a[1..], b[1..])))
  }

  lemma {:induction false} LessIrreflexive(a: Bytes)
    ensures !Less(a, a)
  {
    if |a| > 0 {
      LessIrreflexive(a[1..]);
    }
  }

  lemma {:induction false} LessTransitive(a: Bytes, b: Bytes, c: Bytes)
    requires Less(a, b) && Less(b, c)
    ensures Less(a, c)
  {
    if |a| > 0 && a[0] == b[0] && b[0] == c[0] {
      LessTransitive(a[1..], b[1..], c[1..]);
    }
  }

  lemma {:induction false} LessTotal(a: Bytes, b: Bytes)
    ensures Less(a, b) || a == b || Less(b, a)
  {
    if |a| > 0 && |b| > 0 && a[0] == b[0] {
      LessTotal(a[1..], b[1..]);
      assert a == [a[0]] + a[1..] && b == [b[0]] + b[1..];
    }
  }

  lemma LessAsymmetric(a: Bytes, b: Bytes)
    requires Less(a, b)
    ensures !Less(b, a)
  {
    if Less(b, a) {
      LessTransitive(a, b, a);
      LessIrreflexive(a);
    }
  }
}
