/** Decoding payload text into Go values (genai/lossless_json.go): maps keep the last
    member of a key, numbers keep their lexeme, and the number of nodes is bounded. */
module JsonDecode {
  import opened Bytes
  import opened Utf8
  import opened JsonText
  import opened JsonStrings
  import opened JsonTree
  import opened JsonDepth

  const MAX_BYTES: int := 0x100000
  const MAX_NODES: int := 4096

  /** The rule an invalid observation reports. */
  datatype Rule = TooSmall | InvalidEncoding | InputBounds | ArrayRequired | NonFinite

  datatype Result<+T> = Ok(value: T) | Err(rule: Rule)

  // ----- maps as lists sorted by key

  ghost predicate Sorted(ms: seq<Member>) {
    forall i, j :: 0 <= i < j < |ms| ==> Less(ms[i].key, ms[j].key)
  }

  /** Assignment to a map entry. */
  function Insert(ms: seq<Member>, m: Member): seq<Member>
  {
    if ms == [] then [m]
    else if ms[0].key == m.key then [m] + ms[1..]
    else if Less(m.key, ms[0].key) then [m] + ms
    else [ms[0]] + Insert(ms[1..], m)
  }

  function InsertAll(kept: seq<Member>, ms: seq<Member>): seq<Member>
    decreases |ms|
  {
    if ms == [] then kept else InsertAll(Insert(kept, ms[0]), ms[1..])
  }

  /** The value with every object read into a map. */
  function Canon(v: Json): Json
  {
    match v
    case JArr(items) => JArr(CanonItems(items))
    case JObj(members) => JObj(InsertAll([], CanonMembers(members)))
    case _ => v
  }

  function CanonItems(items: seq<Json>): (r: seq<Json>)
    ensures |r| == |items|
  {
    if items == [] then [] else [Canon(items[0])] + CanonItems(items[1..])
  }

  function CanonMembers(ms: seq<Member>): (r: seq<Member>)
    ensures |r| == |ms|
  {
    if ms == [] then [] else [Member(ms[0].key, Canon(ms[0].value))] + CanonMembers(ms[1..])
  }

  function Find(ms: seq<Member>, key: Bytes): Option<Json>
  {
    if ms == [] then None else if ms[0].key == key then Some(ms[0].value) else Find(ms[1..], key)
  }

  /** The last value given to a key. */
  function LastOf(ms: seq<Member>, key: Bytes): Option<Json>
  {
    if ms == [] then None
    else if LastOf(ms[1..], key).Some? then LastOf(ms[1..], key)
    else if ms[0].key == key then Some(ms[0].value) else None
  }

  ghost predicate HasKey(ms: seq<Member>, key: Bytes) {
    exists i :: 0 <= i < |ms| && ms[i].key == key
  }

  lemma {:induction false} InsertSorted(ms: seq<Member>, m: Member)
    requires Sorted(ms)
    ensures Sorted(Insert(ms, m))
    ensures forall k :: 0 <= k < |Insert(ms, m)| ==>
      Insert(ms, m)[k].key == m.key || HasKey(ms, Insert(ms, m)[k].key)
    ensures forall key :: Find(Insert(ms, m), key) == (if key == m.key then Some(m.value) else Find(ms, key))
  {
    var r := Insert(ms, m);
    if ms != [] && ms[0].key != m.key && !Less(m.key, ms[0].key) {
      InsertSorted(ms[1..], m);
      LessTotal(m.key, ms[0].key);
      forall k | 1 <= k < |r|
        ensures Less(r[0].key, r[k].key) && (r[k].key == m.key || HasKey(ms, r[k].key))
      {
        var q := Insert(ms[1..], m)[k - 1];
        if q.key != m.key {
          var i :| 0 <= i < |ms[1..]| && ms[1..][i].key == q.key;
          assert ms[i + 1].key == q.key;
        }
      }
      assert r[0] == ms[0];
      assert r[1..] == Insert(ms[1..], m);
      SortedCons(r);
    } else if ms != [] && ms[0].key != m.key {
      forall k | 1 <= k < |r|
        ensures Less(r[0].key, r[k].key) && HasKey(ms, r[k].key)
      {
        assert r[k] == ms[k - 1];
        if k > 1 {
          LessTransitive(m.key, ms[0].key, ms[k - 1].key);
        }
      }
      assert r[1..] == ms;
      SortedCons(r);
    } else if ms != [] {
      assert forall k :: 1 <= k < |r| ==> r[k] == ms[k];
      assert r[1..] == ms[1..];
    }
  }

  lemma SortedCons(r: seq<Member>)
    requires r != [] && Sorted(r[1..]) && forall k :: 1 <= k < |r| ==> Less(r[0].key, r[k].key)
    ensures Sorted(r)
  {
    forall i, j | 0 <= i < j < |r|
      ensures Less(r[i].key, r[j].key)
    {
      if i > 0 {
        assert r[1..][i - 1] == r[i] && r[1..][j - 1] == r[j];
      }
    }
  }

  /** A map holds for each key the last value assigned to it, in key order. */
  lemma {:induction false} InsertAllIsMap(kept: seq<Member>, ms: seq<Member>)
    requires Sorted(kept)
    ensures Sorted(InsertAll(kept, ms))
    ensures forall key :: Find(InsertAll(kept, ms), key)
                       == (if LastOf(ms, key).Some? then LastOf(ms, key) else Find(kept, key))
    decreases |ms|
  {
    if ms != [] {
      InsertSorted(kept, ms[0]);
      InsertAllIsMap(Insert(kept, ms[0]), ms[1..]);
    }
  }

  lemma {:induction false} InsertLast(ms: seq<Member>, m: Member)
    requires forall i :: 0 <= i < |ms| ==> Less(ms[i].key, m.key)
    ensures Insert(ms, m) == ms + [m]
  {
    if ms != [] {
      LessAsymmetric(ms[0].key, m.key);
      LessIrreflexive(m.key);
      InsertLast(ms[1..], m);
    }
  }

  /** Reading members that are already sorted changes nothing. */
  lemma {:induction false} InsertAllSorted(kept: seq<Member>, ms: seq<Member>)
    requires Sorted(kept + ms)
    ensures InsertAll(kept, ms) == kept + ms
    decreases |ms|
  {
    if ms != [] {
      assert forall i :: 0 <= i < |kept| ==> (kept + ms)[i] == kept[i];
      assert (kept + ms)[|kept|] == ms[0];
      InsertLast(kept, ms[0]);
      assert kept + ms == (kept + [ms[0]]) + ms[1..];
      InsertAllSorted(kept + [ms[0]], ms[1..]);
    } else {
      assert kept + ms == kept;
    }
  }

  /** All objects are maps. */
  ghost predicate Canonical(v: Json) {
    match v
    case JArr(items) => CanonicalItems(items)
    case JObj(members) => Sorted(members) && CanonicalMembers(members)
    case _ => true
  }

  ghost predicate CanonicalItems(items: seq<Json>) {
    items == [] || (Canonical(items[0]) && CanonicalItems(items[1..]))
  }

  ghost predicate CanonicalMembers(ms: seq<Member>) {
    ms == [] || (Canonical(ms[0].value) && CanonicalMembers(ms[1..]))
  }

  lemma {:induction false} CanonFixed(v: Json)
    requires Canonical(v)
    ensures Canon(v) == v
    decreases v, 1
  {
    match v {
      case JArr(items) => CanonItemsFixed(items);
      case JObj(members) =>
        CanonMembersFixed(members);
        assert [] + members == members;
        InsertAllSorted([], members);
      case _ =>
    }
  }

  lemma {:induction false} CanonItemsFixed(items: seq<Json>)
    requires CanonicalItems(items)
    ensures CanonItems(items) == items
    decreases items, 0
  {
    if items != [] {
      CanonFixed(items[0]);
      CanonItemsFixed(items[1..]);
    }
  }

  lemma {:induction false} CanonMembersFixed(ms: seq<Member>)
    requires CanonicalMembers(ms)
    ensures CanonMembers(ms) == ms
    decreases ms, 0
  {
    if ms != [] {
      CanonFixed(ms[0].value);
      CanonMembersFixed(ms[1..]);
    }
  }

  // ----- size and depth of decoded values

  function Nodes(v: Json): (n: nat)
    ensures n >= 1
  {
    match v
    case JArr(items) => 1 + NodesItems(items)
    case JObj(members) => 1 + NodesMembers(members)
    case _ => 1
  }

  function NodesItems(items: seq<Json>): nat
  {
    if items == [] then 0 else Nodes(items[0]) + NodesItems(items[1..])
  }

  function NodesMembers(ms: seq<Member>): nat
  {
    if ms == [] then 0 else Nodes(ms[0].value) + NodesMembers(ms[1..])
  }

  /** What Canon keeps of a value: canonical form, meaning and bounds. */
  ghost predicate Kept(v: Json) {
    Canonical(v) && WellFormed(v)
  }

  ghost predicate KeptMembers(ms: seq<Member>) {
    CanonicalMembers(ms) && WellFormedMembers(ms)
  }

  lemma {:induction false} InsertBounds(ms: seq<Member>, m: Member)
    ensures NodesMembers(Insert(ms, m)) <= NodesMembers(ms) + Nodes(m.value)
    ensures DepthMembers(Insert(ms, m)) <= Max(DepthMembers(ms), Depth(m.value))
    ensures KeptMembers(ms) && Kept(m.value) && Valid(m.key) ==> KeptMembers(Insert(ms, m))
  {
    var r := Insert(ms, m);
    if ms != [] {
      if ms[0].key == m.key {
        assert r[1..] == ms[1..];
      } else if Less(m.key, ms[0].key) {
        assert r[1..] == ms;
      } else {
        InsertBounds(ms[1..], m);
        assert r[1..] == Insert(ms[1..], m);
      }
    }
  }

  lemma {:induction false} InsertAllBounds(kept: seq<Member>, ms: seq<Member>)
    ensures NodesMembers(InsertAll(kept, ms)) <= NodesMembers(kept) + NodesMembers(ms)
    ensures DepthMembers(InsertAll(kept, ms)) <= Max(DepthMembers(kept), DepthMembers(ms))
    ensures KeptMembers(kept) && KeptMembers(ms) ==> KeptMembers(InsertAll(kept, ms))
    decreases |ms|
  {
    if ms != [] {
      InsertBounds(kept, ms[0]);
      InsertAllBounds(Insert(kept, ms[0]), ms[1..]);
    }
  }

  /** Reading objects into maps never adds nodes or depth, and gives maps. */
  lemma {:induction false} CanonBounds(v: Json)
    requires WellFormed(v)
    ensures Nodes(Canon(v)) <= Nodes(v) && Depth(Canon(v)) <= Depth(v) && Kept(Canon(v))
    decreases v, 1
  {
    match v {
      case JArr(items) => CanonItemsBounds(items);
      case JObj(members) =>
        CanonMembersBounds(members);
        InsertAllBounds([], CanonMembers(members));
        InsertAllIsMap([], CanonMembers(members));
      case _ =>
    }
  }

  lemma {:induction false} CanonItemsBounds(items: seq<Json>)
    requires WellFormedItems(items)
    ensures NodesItems(CanonItems(items)) <= NodesItems(items)
    ensures DepthItems(CanonItems(items)) <= DepthItems(items)
    ensures CanonicalItems(CanonItems(items)) && WellFormedItems(CanonItems(items))
    decreases items, 0
  {
    if items != [] {
      CanonBounds(items[0]);
      CanonItemsBounds(items[1..]);
      assert CanonItems(items)[1..] == CanonItems(items[1..]);
    }
  }

  lemma {:induction false} CanonMembersBounds(ms: seq<Member>)
    requires WellFormedMembers(ms)
    ensures NodesMembers(CanonMembers(ms)) <= NodesMembers(ms)
    ensures DepthMembers(CanonMembers(ms)) <= DepthMembers(ms)
    ensures KeptMembers(CanonMembers(ms))
    decreases ms, 0
  {
    if ms != [] {
      CanonBounds(ms[0].value);
      CanonMembersBounds(ms[1..]);
      assert CanonMembers(ms)[1..] == CanonMembers(ms[1..]);
    }
  }

  // ----- values read from text

  /** Strings are well-formed UTF-8 and numbers are numbers, as in every value read. */
  predicate WellFormed(v: Json) {
    match v
    case JNum(lexeme) => ValidNumber(lexeme) && lexeme != []
    case JStr(s) => Valid(s)
    case JArr(items) => WellFormedItems(items)
    case JObj(members) => WellFormedMembers(members)
    case JRaw(_) => false
    case _ => true
  }

  predicate WellFormedItems(items: seq<Json>) {
    items == [] || (WellFormed(items[0]) && WellFormedItems(items[1..]))
  }

  predicate WellFormedMembers(ms: seq<Member>) {
    ms == [] || (Valid(ms[0].key) && WellFormed(ms[0].value) && WellFormedMembers(ms[1..]))
  }

  predicate GoodSym(s: Sym) {
    match s
    case Str(text) => Valid(text)
    case Number(lexeme) => ValidNumber(lexeme) && lexeme != []
    case _ => true
  }

  predicate GoodSyms(ss: seq<Sym>) { forall i :: 0 <= i < |ss| ==> GoodSym(ss[i]) }

  lemma EncodedValid(cp: int)
    requires Scalar(cp)
    ensures Valid(EncodeRune(cp))
  {
    EncodeWidth(cp, []);
    assert EncodeRune(cp) + [] == EncodeRune(cp);
    ValidHead(EncodeRune(cp));
  }

  lemma PieceOutValid(t: Bytes)
    requires BodyStep(t).Piece?
    ensures Valid(BodyStep(t).out)
  {
    EncodedValid(0xFFFD);
    if t[0] == '\\' {
      if Unit(t).Some? {
        var u := Unit(t).value;
        if !Surrogate(u) {
          EncodedValid(u);
        } else if u < 0xDC00 && LowUnit(t[6..]).Some? {
          EncodedValid(0x10000 + (u - 0xD800) * 0x400 + (LowUnit(t[6..]).value - 0xDC00));
        }
      } else {
        AsciiValid(BodyStep(t).out);
      }
    } else if Width(t) > 0 {
      ValidHead(t);
    }
  }

  lemma {:induction false} BodyTextValid(t: Bytes)
    requires LexBody(t).Some?
    ensures Valid(LexBody(t).value.text)
  {
    if BodyStep(t).Piece? {
      var n := BodyStep(t).n;
      PieceOutValid(t);
      BodyTextValid(t[n..]);
      ValidConcat(BodyStep(t).out, LexBody(t[n..]).value.text);
    }
  }

  lemma TokenMeaning(tok: Token)
    requires WfToken(tok)
    ensures GoodSym(tok.sym)
  {
    if tok.sym.Str? {
      BodyTextValid(tok.spelling[1..]);
    }
  }

  lemma {:induction false} WellFormedOfSyms(v: Json)
    requires NoRaw(v) && GoodSyms(SymsOf(v))
    ensures WellFormed(v)
    decreases v, 1
  {
    var ss := SymsOf(v);
    match v {
      case JNum(_) => assert GoodSym(ss[0]);
      case JStr(_) => assert GoodSym(ss[0]);
      case JArr(items) =>
        if items != [] {
          assert forall i :: 0 <= i < |ss[1..]| ==> ss[1..][i] == ss[i + 1];
          assert ss[1..] == SymsOfItems(items);
          WellFormedOfItems(items);
        }
      case JObj(members) =>
        if members != [] {
          assert forall i :: 0 <= i < |ss[1..]| ==> ss[1..][i] == ss[i + 1];
          assert ss[1..] == SymsOfMembers(members);
          WellFormedOfMembers(members);
        }
      case _ =>
    }
  }

  lemma GoodSplit(a: seq<Sym>, b: seq<Sym>)
    requires GoodSyms(a + b)
    ensures GoodSyms(a) && GoodSyms(b)
  {
    forall i | 0 <= i < |a|
      ensures GoodSym(a[i])
    {
      assert (a + b)[i] == a[i];
    }
    forall i | 0 <= i < |b|
      ensures GoodSym(b[i])
    {
      assert (a + b)[|a| + i] == b[i];
    }
  }

  lemma {:induction false} WellFormedOfItems(items: seq<Json>)
    requires items != [] && NoRawItems(items) && GoodSyms(SymsOfItems(items))
    ensures WellFormedItems(items)
    decreases items, 0
  {
    var tail := if |items| == 1 then [RBracket] else [Comma] + SymsOfItems(items[1..]);
    GoodSplit(SymsOf(items[0]), tail);
    WellFormedOfSyms(items[0]);
    if |items| > 1 {
      GoodSplit([Comma], SymsOfItems(items[1..]));
      WellFormedOfItems(items[1..]);
    }
  }

  lemma {:induction false} WellFormedOfMembers(ms: seq<Member>)
    requires ms != [] && NoRawMembers(ms) && GoodSyms(SymsOfMembers(ms))
    ensures WellFormedMembers(ms)
    decreases ms, 0
  {
    var head := [Str(ms[0].key), Colon];
    var tail := if |ms| == 1 then [RBrace] else [Comma] + SymsOfMembers(ms[1..]);
    GoodSplit(head + SymsOf(ms[0].value), tail);
    GoodSplit(head, SymsOf(ms[0].value));
    assert GoodSym(head[0]);
    WellFormedOfSyms(ms[0].value);
    if |ms| > 1 {
      GoodSplit([Comma], SymsOfMembers(ms[1..]));
      WellFormedOfMembers(ms[1..]);
    }
  }

  /** Every value read from text has well-formed strings and numbers. */
  lemma ParseWellFormed(t: Bytes)
    requires Parse(t).Some?
    ensures WellFormed(Parse(t).value)
  {
    var ts := Lex(t).value;
    LexWf(t);
    forall i | 0 <= i < |ts|
      ensures GoodSym(Syms(ts)[i])
    {
      TokenMeaning(ts[i]);
    }
    SymsOfParse(Syms(ts));
    var v := Parse(t).value;
    assert Syms(ts) == SymsOf(v) + [];
    assert SymsOf(v) + [] == SymsOf(v);
    WellFormedOfSyms(v);
  }

  lemma {:induction false} WellFormedMarshals(v: Json)
    requires WellFormed(v)
    ensures Marshals(v) && Resolve(v) == v
    decreases v, 1
  {
    match v {
      case JStr(s) => CleanValid(s);
      case JArr(items) => WellFormedItemsMarshal(items);
      case JObj(members) => WellFormedMembersMarshal(members);
      case _ =>
    }
  }

  lemma {:induction false} WellFormedItemsMarshal(items: seq<Json>)
    requires WellFormedItems(items)
    ensures MarshalsItems(items) && ResolveItems(items) == items
    decreases items, 0
  {
    if items != [] {
      WellFormedMarshals(items[0]);
      WellFormedItemsMarshal(items[1..]);
    }
  }

  lemma {:induction false} WellFormedMembersMarshal(ms: seq<Member>)
    requires WellFormedMembers(ms)
    ensures MarshalsMembers(ms) && ResolveMembers(ms) == ms
    decreases ms, 0
  {
    if ms != [] {
      CleanValid(ms[0].key);
      WellFormedMarshals(ms[0].value);
      WellFormedMembersMarshal(ms[1..]);
    }
  }

  /** Printing a value that was read and reading it again changes nothing. */
  lemma PrintParse(v: Json, html: bool)
    requires WellFormed(v)
    ensures Marshals(v) && Parse(Text(v, html)) == Some(v)
  {
    WellFormedMarshals(v);
    MarshalParse(v, html);
  }

  // ----- the node budget

  /** The counter that the recursion shares by reference. */
  class Budget {
    var remaining: int

    constructor (n: int)
      ensures remaining == n
    {
      remaining := n;
    }
  }

  lemma {:induction false} NodesWithout(ms: seq<Member>, i: nat)
    requires i < |ms|
    ensures NodesMembers(ms) == NodesMembers(ms[..i] + ms[i + 1..]) + Nodes(ms[i].value)
  {
    var without := ms[..i] + ms[i + 1..];
    if i == 0 {
      assert without == ms[1..];
    } else {
      NodesWithout(ms[1..], i - 1);
      assert without[1..] == ms[1..][..i - 1] + ms[1..][i..];
    }
  }

  /** Spends one unit per node. Go visits the members of a map in any order. */
  method JsonNodesWithinBudget(v: Json, budget: Budget) returns (ok: bool)
    requires budget.remaining >= 0
    modifies budget
    ensures ok <==> Nodes(v) <= old(budget.remaining)
    ensures budget.remaining == if ok then old(budget.remaining) - Nodes(v) else -1
    decreases v
  {
    budget.remaining := budget.remaining - 1;
    if budget.remaining < 0 {
      return false;
    }
    ghost var start := budget.remaining;
    match v {
      case JArr(items) =>
        var i := 0;
        while i < |items|
          invariant 0 <= i <= |items| && 0 <= budget.remaining
          invariant budget.remaining + NodesItems(items) == start + NodesItems(items[i..])
        {
          var fits := JsonNodesWithinBudget(items[i], budget);
          if !fits {
            return false;
          }
          i := i + 1;
        }
      case JObj(members) =>
        var todo := members;
        while todo != []
          invariant 0 <= budget.remaining
          invariant forall i :: 0 <= i < |todo| ==> todo[i] in members
          invariant budget.remaining + NodesMembers(members) == start + NodesMembers(todo)
          decreases |todo|
        {
          var i :| 0 <= i < |todo|;
          NodesWithout(todo, i);
          assert todo[i] in members;
          var fits := JsonNodesWithinBudget(todo[i].value, budget);
          if !fits {
            return false;
          }
          todo := todo[..i] + todo[i + 1..];
        }
      case _ =>
    }
    return true;
  }

  // ----- decoding

  /** The result of decodePayloadJSON: one value within the byte, depth and node bounds. */
  function Decode(raw: Bytes): Result<Json>
  {
    if |raw| > MAX_BYTES || !Scan(raw, 0, false, false) then Err(InputBounds)
    else if !Valid(raw) then Err(InvalidEncoding)
    else
      match Parse(raw)
      case None => Err(InvalidEncoding)
      case Some(v) => if Nodes(Canon(v)) <= MAX_NODES then Ok(Canon(v)) else Err(InputBounds)
  }

  method DecodePayloadJSON(raw: Bytes) returns (r: Result<Json>)
    ensures r == Decode(raw)
  {
    var shallow := BoundedJSONDepth(raw);
    if |raw| > MAX_BYTES || !shallow {
      return Err(InputBounds);
    }
    if !Valid(raw) {
      return Err(InvalidEncoding);
    }
    var value := Parse(raw);
    if value == None {
      return Err(InvalidEncoding);
    }
    var budget := new Budget(MAX_NODES);
    var fits := JsonNodesWithinBudget(Canon(value.value), budget);
    if !fits {
      return Err(InputBounds);
    }
    return Ok(Canon(value.value));
  }

  /** What decoding promises about every text it accepts. */
  lemma DecodeSound(raw: Bytes)
    requires Decode(raw).Ok?
    ensures var v := Decode(raw).value;
      && WellFormed(v) && Canonical(v) && Nodes(v) <= MAX_NODES && Depth(v) <= MAX_DEPTH
      && Marshals(v) && Resolve(v) == v && Canon(v) == v
  {
    var v := Parse(raw).value;
    ParseWellFormed(raw);
    ScannerDecidesDepth(raw);
    CanonBounds(v);
    CanonFixed(Canon(v));
    WellFormedMarshals(Canon(v));
  }

  /** Decoding what json.Marshal wrote gives the value back, within the bounds and
      only then. */
  lemma DecodeOfText(v: Json, html: bool)
    requires Marshals(v)
    ensures Decode(Text(v, html)) ==
      if |Text(v, html)| <= MAX_BYTES && Depth(Resolve(v)) <= MAX_DEPTH && Nodes(Canon(Resolve(v))) <= MAX_NODES
      then Ok(Canon(Resolve(v))) else Err(InputBounds)
  {
    MarshalParse(v, html);
    ScannerDecidesDepth(Text(v, html));
    TextValid(v, html);
  }
}
