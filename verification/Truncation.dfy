/** Byte-limited text that stays well-formed UTF-8 (genai/helpers.go). */
module Truncation {
  import opened Bytes
  import opened Utf8

  const SUFFIX: Bytes := "... [truncated]"

  /** Removal of every malformed byte, the meaning of strings.ToValidUTF8(s, ""). */
  function ToValid(s: Bytes): (r: Bytes)
  {
    if s == [] then []
    else if Width(s) == 0 then ToValid(s[1..])
    else s[..Width(s)] + ToValid(s[Width(s)..])
  }

  /** The largest index up to limit that is 0 or holds a byte that starts a character. */
  function Boundary(s: Bytes, limit: nat): (k: nat)
    requires limit < |s|
    ensures k <= limit
  {
    if limit == 0 || !Continuation(s[limit]) then limit else Boundary(s, limit - 1)
  }

  /** The text kept of s under a byte limit, before malformed bytes are removed. */
  function Kept(s: Bytes, limit: int): (r: Bytes)
  {
    if limit <= 0 then [] else if limit >= |s| then s else s[..Boundary(s, limit)]
  }

  /** r is the longest well-formed prefix of s within limit bytes. */
  ghost predicate LongestPrefix(s: Bytes, limit: nat, r: Bytes)
    requires limit <= |s|
  {
    && r <= s && |r| <= limit && Valid(r)
    && forall j :: |r| < j <= limit ==> !Valid(s[..j])
  }

  method TruncateAtRuneBoundary(s: Bytes, limit: int) returns (r: Bytes)
    ensures r == Kept(s, limit)
    ensures r <= s && |r| <= if limit <= 0 then 0 else limit
  {
    if limit <= 0 {
      return [];
    }
    if limit >= |s| {
      return s;
    }
    var end := limit;
    while end > 0 && Continuation(s[end])
      invariant 0 <= end <= limit
      invariant Boundary(s, end) == Boundary(s, limit)
    {
      end := end - 1;
    }
    return s[..end];
  }

  /** What an event or span may carry of s under a byte limit. */
  function Truncated(s: Bytes, limit: int): Bytes
  {
    if limit <= 0 then []
    else if |s| <= limit then ToValid(s)
    else if limit <= |SUFFIX| then ToValid(Kept(s, limit))
    else ToValid(Kept(s, limit - |SUFFIX|)) + SUFFIX
  }

  method TruncateContext(s: Bytes, limit: int) returns (r: Bytes)
    ensures r == Truncated(s, limit)
    ensures Valid(r) && |r| <= if limit <= 0 then 0 else limit
  {
    hide ToValid, Kept, Valid;
    TruncatedIsValid(s, limit);
    if limit <= 0 {
      return [];
    }
    if |s| <= limit {
      return ToValid(s);
    }
    if limit <= |SUFFIX| {
      var head := TruncateAtRuneBoundary(s, limit);
      return ToValid(head);
    }
    var head := TruncateAtRuneBoundary(s, limit - |SUFFIX|);
    return ToValid(head) + SUFFIX;
  }

  /** Every input, malformed or not, becomes well-formed text within the limit. */
  lemma TruncatedIsValid(s: Bytes, limit: int)
    ensures Valid(Truncated(s, limit)) && |Truncated(s, limit)| <= if limit <= 0 then 0 else limit
  {
    hide ToValid;
    if 0 < limit {
      if |s| <= limit {
        ToValidIsValid(s);
      } else if limit <= |SUFFIX| {
        ToValidIsValid(Kept(s, limit));
      } else {
        var head := Kept(s, limit - |SUFFIX|);
        ToValidIsValid(head);
        AsciiValid(SUFFIX);
        ValidConcat(ToValid(head), SUFFIX);
      }
    }
  }

  /** Well-formed text keeps its longest well-formed prefix that leaves room for the
      suffix; below the suffix length there is no suffix. */
  lemma TruncatedIsLongest(s: Bytes, limit: nat)
    requires Valid(s)
    ensures |s| <= limit ==> Truncated(s, limit) == s
    ensures 0 < limit < |s| && limit <= |SUFFIX| ==> LongestPrefix(s, limit, Truncated(s, limit))
    ensures |SUFFIX| < limit < |s| ==>
              exists r :: LongestPrefix(s, limit - |SUFFIX|, r) && Truncated(s, limit) == r + SUFFIX
  {
    if |s| <= limit {
      ToValidIsValid(s);
    } else if 0 < limit {
      var room := if limit <= |SUFFIX| then limit else limit - |SUFFIX|;
      KeptIsLongestPrefix(s, room);
      var r := Kept(s, room);
      assert limit > |SUFFIX| ==> LongestPrefix(s, limit - |SUFFIX|, r) && Truncated(s, limit) == r + SUFFIX;
    }
  }

  lemma {:induction false} ToValidIsValid(s: Bytes)
    ensures Valid(ToValid(s)) && |ToValid(s)| <= |s|
    ensures Valid(s) ==> ToValid(s) == s
  {
    if s != [] {
      var w := Width(s);
      if w == 0 {
        ToValidIsValid(s[1..]);
      } else {
        ToValidIsValid(s[w..]);
        ValidHead(s);
        ValidConcat(s[..w], ToValid(s[w..]));
        assert s == s[..w] + s[w..];
      }
    }
  }

  /** In well-formed text a cut is well-formed exactly at a byte that starts a character. */
  lemma {:induction false} CutIsValid(s: Bytes, p: nat)
    requires Valid(s) && p < |s|
    ensures Valid(s[..p]) <==> !Continuation(s[p])
  {
    var w := Width(s);
    if p >= w {
      CutIsValid(s[w..], p - w);
      ValidHead(s);
      ValidConcat(s[..w], s[w..][..p - w]);
      assert s[..p] == s[..w] + s[w..][..p - w];
    } else if p > 0 {
      assert s[..p][0] == s[0];
    }
  }

  lemma {:induction false} BoundaryIsLargest(s: Bytes, limit: nat)
    requires limit < |s|
    ensures Boundary(s, limit) <= limit
    ensures Boundary(s, limit) == 0 || !Continuation(s[Boundary(s, limit)])
    ensures forall j :: Boundary(s, limit) < j <= limit ==> Continuation(s[j])
  {
    if limit != 0 && Continuation(s[limit]) {
      BoundaryIsLargest(s, limit - 1);
    }
  }

  /** What is kept of well-formed text is its longest well-formed prefix within the limit. */
  lemma KeptIsLongestPrefix(s: Bytes, limit: nat)
    requires Valid(s) && limit < |s|
    ensures LongestPrefix(s, limit, Kept(s, limit)) && ToValid(Kept(s, limit)) == Kept(s, limit)
  {
    BoundaryIsLargest(s, limit);
    var k := |Kept(s, limit)|;
    if k > 0 {
      CutIsValid(s, k);
    }
    ToValidIsValid(s[..k]);
    forall j | k < j <= limit
      ensures !Valid(s[..j])
    {
      CutIsValid(s, j);
    }
  }
}
