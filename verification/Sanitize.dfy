/** The recursive privacy transformation of JSON values (genai/payload_policy.go). */
module Sanitize {
  import opened Bytes
  import opened Utf8
  import opened JsonText
  import opened JsonStrings
  import opened JsonTree
  import opened JsonDepth
  import opened JsonDecode
  import opened JsonLength
  import BoundedJson

  const REDACTED: Bytes := "[redacted]"
  const REDACTED_JSON: Bytes := "{\"redacted\":true}"
  const FINGERPRINT: Bytes := "sha256:"

  /** A SHA-256 digest in hexadecimal. The hash itself is an arbitrary function. */
  type Digest = d: Bytes | |d| == 64 && forall i :: 0 <= i < |d| ==> LowerHex(d[i])
    witness seq(64, _ => '0')

  type Hash = Bytes -> Digest

  /** What replaces a leaf: a function of the whole leaf value. */
  type Leaf = Json -> Bytes

  function Fingerprint(hash: Hash, s: Bytes): Bytes { FINGERPRINT + hash(s) }

  function RedactLeaf(): Leaf { (v: Json) => REDACTED }

  /** The fingerprint of the canonical text of a leaf. */
  function HashLeaf(hash: Hash): Leaf {
    (v: Json) => Fingerprint(hash, if Marshals(v) then Text(v, true) else [])
  }

  predicate KeysWithin(ms: seq<Member>, keys: set<Bytes>) {
    forall i :: 0 <= i < |ms| ==> ms[i].key in keys
  }

  /** Objects whose keys are all allowed keep them; everything else becomes a leaf. */
  function SanitizeValue(v: Json, leaf: Leaf, keys: set<Bytes>): Json
  {
    match v
    case JObj(members) =>
      if KeysWithin(members, keys) then JObj(SanitizeMembers(members, leaf, keys)) else JStr(leaf(v))
    case JArr(items) => JArr(SanitizeItems(items, leaf, keys))
    case _ => JStr(leaf(v))
  }

  function SanitizeItems(items: seq<Json>, leaf: Leaf, keys: set<Bytes>): (r: seq<Json>)
    ensures |r| == |items|
  {
    if items == [] then [] else [SanitizeValue(items[0], leaf, keys)] + SanitizeItems(items[1..], leaf, keys)
  }

  function SanitizeMembers(ms: seq<Member>, leaf: Leaf, keys: set<Bytes>): (r: seq<Member>)
    ensures |r| == |ms| && forall i :: 0 <= i < |r| ==> r[i].key == ms[i].key
  {
    if ms == [] then []
    else [Member(ms[0].key, SanitizeValue(ms[0].value, leaf, keys))] + SanitizeMembers(ms[1..], leaf, keys)
  }

  /** The leaf texts are short printable ASCII. */
  ghost predicate Short(leaf: Leaf) {
    forall v :: PlainText(leaf(v)) && |leaf(v)| <= 71
  }

  lemma BuiltInLeavesShort(hash: Hash)
    ensures Short(RedactLeaf()) && Short(HashLeaf(hash))
  {
    forall v: Json
      ensures PlainText(HashLeaf(hash)(v)) && |HashLeaf(hash)(v)| <= 71
    {
      FingerprintPlain(hash, if Marshals(v) then Text(v, true) else []);
    }
  }

  lemma FingerprintPlain(hash: Hash, s: Bytes)
    ensures PlainText(Fingerprint(hash, s)) && |Fingerprint(hash, s)| == 71
  {
    var d := hash(s);
    assert forall i :: 0 <= i < |d| ==> LowerHex(d[i]);
  }

  lemma LeafValue(leaf: Leaf, v: Json)
    requires Short(leaf)
    ensures var r := JStr(leaf(v));
      WellFormed(r) && Canonical(r) && Marshals(r) && Length(r, true) <= 73
  {
    EscapePlain(leaf(v), true);
  }

  /** Sanitizing keeps a value readable and never adds nodes or depth. */
  lemma {:induction false} SanitizeBounds(v: Json, leaf: Leaf, keys: set<Bytes>)
    requires WellFormed(v) && Canonical(v) && Short(leaf)
    ensures var r := SanitizeValue(v, leaf, keys);
      WellFormed(r) && Canonical(r) && Nodes(r) <= Nodes(v) && Depth(r) <= Depth(v)
    decreases v, 1
  {
    match v {
      case JArr(items) => SanitizeItemsBounds(items, leaf, keys);
      case JObj(members) =>
        if KeysWithin(members, keys) {
          SanitizeMembersBounds(members, leaf, keys);
          var r := SanitizeMembers(members, leaf, keys);
          assert Sorted(r);
        } else {
          LeafValue(leaf, v);
        }
      case _ => LeafValue(leaf, v);
    }
  }

  lemma {:induction false} SanitizeItemsBounds(items: seq<Json>, leaf: Leaf, keys: set<Bytes>)
    requires WellFormedItems(items) && CanonicalItems(items) && Short(leaf)
    ensures var r := SanitizeItems(items, leaf, keys);
      WellFormedItems(r) && CanonicalItems(r) && NodesItems(r) <= NodesItems(items)
        && DepthItems(r) <= DepthItems(items)
    decreases items, 0
  {
    if items != [] {
      SanitizeBounds(items[0], leaf, keys);
      SanitizeItemsBounds(items[1..], leaf, keys);
      assert SanitizeItems(items, leaf, keys)[1..] == SanitizeItems(items[1..], leaf, keys);
    }
  }

  lemma {:induction false} SanitizeMembersBounds(ms: seq<Member>, leaf: Leaf, keys: set<Bytes>)
    requires KeptMembers(ms) && Short(leaf)
    ensures var r := SanitizeMembers(ms, leaf, keys);
      KeptMembers(r) && NodesMembers(r) <= NodesMembers(ms) && DepthMembers(r) <= DepthMembers(ms)
    decreases ms, 0
  {
    if ms != [] {
      SanitizeBounds(ms[0].value, leaf, keys);
      SanitizeMembersBounds(ms[1..], leaf, keys);
      assert SanitizeMembers(ms, leaf, keys)[1..] == SanitizeMembers(ms[1..], leaf, keys);
    }
  }

  /** Without schema keys the result costs at most 74 bytes a node, separator included. */
  lemma {:induction false} SanitizedLength(v: Json, leaf: Leaf)
    requires WellFormed(v) && Canonical(v) && Short(leaf)
    ensures var r := SanitizeValue(v, leaf, {});
      Marshals(r) && Length(r, true) + 1 <= 74 * Nodes(r)
    decreases v, 1
  {
    match v {
      case JArr(items) => SanitizedItemsLength(items, leaf);
      case JObj(members) =>
        if members != [] {
          assert members[0].key !in {};
          LeafValue(leaf, v);
        }
      case _ => LeafValue(leaf, v);
    }
  }

  lemma {:induction false} SanitizedItemsLength(items: seq<Json>, leaf: Leaf)
    requires WellFormedItems(items) && CanonicalItems(items) && Short(leaf)
    ensures var r := SanitizeItems(items, leaf, {});
      MarshalsItems(r) && LengthItems(r, true) <= 74 * NodesItems(r)
    decreases items, 0
  {
    if items != [] {
      SanitizedLength(items[0], leaf);
      SanitizedItemsLength(items[1..], leaf);
      assert SanitizeItems(items, leaf, {})[1..] == SanitizeItems(items[1..], leaf, {});
    }
  }

  // ----- redaction reveals only the allowlisted skeleton

  /** What the allowlist lets through of a value: the shape above its leaves. */
  datatype Shape = Hidden | List(items: seq<Shape>) | Record(fields: seq<(Bytes, Shape)>)

  function ShapeOf(v: Json, keys: set<Bytes>): Shape
  {
    match v
    case JArr(items) => List(ShapeOfItems(items, keys))
    case JObj(members) => if KeysWithin(members, keys) then Record(ShapeOfMembers(members, keys)) else Hidden
    case _ => Hidden
  }

  function ShapeOfItems(items: seq<Json>, keys: set<Bytes>): (r: seq<Shape>)
    ensures |r| == |items|
  {
    if items == [] then [] else [ShapeOf(items[0], keys)] + ShapeOfItems(items[1..], keys)
  }

  function ShapeOfMembers(ms: seq<Member>, keys: set<Bytes>): (r: seq<(Bytes, Shape)>)
    ensures |r| == |ms|
  {
    if ms == [] then [] else [(ms[0].key, ShapeOf(ms[0].value, keys))] + ShapeOfMembers(ms[1..], keys)
  }

  function Redact(v: Json, keys: set<Bytes>): Json { SanitizeValue(v, RedactLeaf(), keys) }

  /** Two values redact alike exactly when they have the same allowlisted skeleton: the
      output carries the skeleton and nothing else. */
  lemma {:induction false} RedactionIsShape(v: Json, w: Json, keys: set<Bytes>)
    ensures Redact(v, keys) == Redact(w, keys) <==> ShapeOf(v, keys) == ShapeOf(w, keys)
    decreases v, 1
  {
    match (v, w) {
      case (JArr(items), JArr(others)) => RedactionIsShapeItems(items, others, keys);
      case (JObj(members), JObj(others)) =>
        if KeysWithin(members, keys) && KeysWithin(others, keys) {
          RedactionIsShapeMembers(members, others, keys);
        }
      case _ =>
    }
  }

  lemma {:induction false} RedactionIsShapeItems(a: seq<Json>, b: seq<Json>, keys: set<Bytes>)
    ensures SanitizeItems(a, RedactLeaf(), keys) == SanitizeItems(b, RedactLeaf(), keys)
        <==> ShapeOfItems(a, keys) == ShapeOfItems(b, keys)
    decreases a, 0
  {
    if |a| == |b| && a != [] {
      RedactionIsShape(a[0], b[0], keys);
      RedactionIsShapeItems(a[1..], b[1..], keys);
      var ra, rb := SanitizeItems(a, RedactLeaf(), keys), SanitizeItems(b, RedactLeaf(), keys);
      var sa, sb := ShapeOfItems(a, keys), ShapeOfItems(b, keys);
      assert ra == [ra[0]] + ra[1..] && rb == [rb[0]] + rb[1..];
      assert sa == [sa[0]] + sa[1..] && sb == [sb[0]] + sb[1..];
    }
  }

  lemma {:induction false} RedactionIsShapeMembers(a: seq<Member>, b: seq<Member>, keys: set<Bytes>)
    ensures SanitizeMembers(a, RedactLeaf(), keys) == SanitizeMembers(b, RedactLeaf(), keys)
        <==> ShapeOfMembers(a, keys) == ShapeOfMembers(b, keys)
    decreases a, 0
  {
    if |a| == |b| && a != [] {
      RedactionIsShape(a[0].value, b[0].value, keys);
      RedactionIsShapeMembers(a[1..], b[1..], keys);
      var ra, rb := SanitizeMembers(a, RedactLeaf(), keys), SanitizeMembers(b, RedactLeaf(), keys);
      var sa, sb := ShapeOfMembers(a, keys), ShapeOfMembers(b, keys);
      assert ra == [ra[0]] + ra[1..] && rb == [rb[0]] + rb[1..];
      assert sa == [sa[0]] + sa[1..] && sb == [sb[0]] + sb[1..];
    }
  }

  /** Only allowed keys, and only the constant as a leaf. */
  predicate Redacted(v: Json, keys: set<Bytes>) {
    match v
    case JStr(s) => s == REDACTED
    case JArr(items) => RedactedItems(items, keys)
    case JObj(members) => KeysWithin(members, keys) && RedactedMembers(members, keys)
    case _ => false
  }

  predicate RedactedItems(items: seq<Json>, keys: set<Bytes>) {
    items == [] || (Redacted(items[0], keys) && RedactedItems(items[1..], keys))
  }

  predicate RedactedMembers(ms: seq<Member>, keys: set<Bytes>) {
    ms == [] || (Redacted(ms[0].value, keys) && RedactedMembers(ms[1..], keys))
  }

  /** Redaction leaves only allowed keys and the constant, and does so exactly: values
      of that form are its fixed points. */
  lemma {:induction false} RedactionIsComplete(v: Json, keys: set<Bytes>)
    ensures Redacted(Redact(v, keys), keys)
    ensures Redacted(v, keys) <==> Redact(v, keys) == v
    decreases v, 1
  {
    match v {
      case JArr(items) => RedactionIsCompleteItems(items, keys);
      case JObj(members) =>
        if KeysWithin(members, keys) {
          RedactionIsCompleteMembers(members, keys);
        }
      case _ =>
    }
  }

  lemma {:induction false} RedactionIsCompleteItems(items: seq<Json>, keys: set<Bytes>)
    ensures RedactedItems(SanitizeItems(items, RedactLeaf(), keys), keys)
    ensures RedactedItems(items, keys) <==> SanitizeItems(items, RedactLeaf(), keys) == items
    decreases items, 0
  {
    if items != [] {
      RedactionIsComplete(items[0], keys);
      RedactionIsCompleteItems(items[1..], keys);
      var r := SanitizeItems(items, RedactLeaf(), keys);
      assert r[1..] == SanitizeItems(items[1..], RedactLeaf(), keys);
      assert items == [items[0]] + items[1..];
    }
  }

  lemma {:induction false} RedactionIsCompleteMembers(ms: seq<Member>, keys: set<Bytes>)
    ensures RedactedMembers(SanitizeMembers(ms, RedactLeaf(), keys), keys)
    ensures RedactedMembers(ms, keys) <==> SanitizeMembers(ms, RedactLeaf(), keys) == ms
    decreases ms, 0
  {
    if ms != [] {
      RedactionIsComplete(ms[0].value, keys);
      RedactionIsCompleteMembers(ms[1..], keys);
      var r := SanitizeMembers(ms, RedactLeaf(), keys);
      assert r[1..] == SanitizeMembers(ms[1..], RedactLeaf(), keys);
      assert ms == [ms[0]] + ms[1..];
    }
  }

  lemma RedactionIdempotent(v: Json, keys: set<Bytes>)
    ensures Redact(Redact(v, keys), keys) == Redact(v, keys)
  {
    RedactionIsComplete(v, keys);
    RedactionIsComplete(Redact(v, keys), keys);
  }

  // ----- on text

  /** The text a policy puts in place of raw JSON. */
  function SanitizeText(raw: Bytes, leaf: Leaf, keys: set<Bytes>): Bytes
  {
    match Decode(raw)
    case Err(_) => REDACTED_JSON
    case Ok(v) =>
      var r := SanitizeValue(v, leaf, keys);
      if Marshals(r) then Text(r, true) else REDACTED_JSON
  }

  /** Sanitized text reads back as the sanitized value unless it grew over the bound. */
  lemma SanitizedTextDecodes(raw: Bytes, leaf: Leaf, keys: set<Bytes>)
    requires Short(leaf) && Decode(raw).Ok?
    ensures var r := SanitizeValue(Decode(raw).value, leaf, keys);
      && Marshals(r) && SanitizeText(raw, leaf, keys) == Text(r, true) && Valid(Text(r, true))
      && Parse(Text(r, true)) == Some(r) && Canon(r) == r
      && Decode(Text(r, true)) == (if |Text(r, true)| <= MAX_BYTES then Ok(r) else Err(InputBounds))
  {
    var v := Decode(raw).value;
    DecodeSound(raw);
    SanitizeBounds(v, leaf, keys);
    var r := SanitizeValue(v, leaf, keys);
    WellFormedMarshals(r);
    CanonFixed(r);
    PrintParse(r, true);
    DecodeOfText(r, true);
    TextValid(r, true);
  }

  const REDACTED_VALUE: Json := JObj([Member("redacted", JBool(true))])

  lemma RedactedJsonDecodes()
    ensures Decode(REDACTED_JSON) == Ok(REDACTED_VALUE)
  {
    hide Text, Decode, Nodes, Depth, Marshals, WellFormed, Canonical;
    RedactedKey();
    BoundedJson.MarkerTokens("redacted");
    RedactedRender(StringOf("redacted", true));
    assert Text(REDACTED_VALUE, true) == REDACTED_JSON by { TextIsRender(REDACTED_VALUE); }
    BoundedJson.DecodeRead(REDACTED_VALUE);
    BoundedJson.FlagMeasures(Member("redacted", JBool(true)));
  }

  lemma TextIsRender(v: Json)
    requires Marshals(v)
    ensures Text(v, true) == Render(Tokens(v, true))
  {
  }

  lemma RedactedKey()
    ensures Valid("redacted") && StringOf("redacted", true).spelling == "\"redacted\""
  {
    hide StringOf, Escape, Valid;
    BoundedJson.PlainString("redacted");
    assert "\"" + "redacted" + "\"" == "\"redacted\"";
  }

  lemma RedactedRender(key: Token)
    requires key.spelling == "\"redacted\""
    ensures Render([Token(LBrace, "{")] + ([key, Token(Colon, ":")] + [Token(True, "true")] + [Token(RBrace, "}")]))
         == REDACTED_JSON
  {
    BoundedJson.FlagRender(key);
    assert "{" + "\"redacted\"" + ":true}" == REDACTED_JSON;
  }

  function RedactText(raw: Bytes, keys: set<Bytes>): Bytes { SanitizeText(raw, RedactLeaf(), keys) }

  /** On text, redacting twice equals redacting once exactly when the text could be read
      and its redaction is still within the input bound. */
  lemma RedactTextIdempotent(raw: Bytes, keys: set<Bytes>)
    ensures RedactText(RedactText(raw, keys), keys) == RedactText(raw, keys)
       <==> Decode(raw).Ok? && |RedactText(raw, keys)| <= MAX_BYTES
  {
    hide Text, Decode, Marshals, Parse;
    var hash: Hash := (s: Bytes) => seq(64, _ => '0');
    BuiltInLeavesShort(hash);
    var once := RedactText(raw, keys);
    if Decode(raw).Ok? {
      var v := Decode(raw).value;
      SanitizedTextDecodes(raw, RedactLeaf(), keys);
      if |once| <= MAX_BYTES {
        RedactionIdempotent(v, keys);
      }
    } else {
      RedactedJsonDecodes();
      SanitizedTextDecodes(once, RedactLeaf(), keys);
      RedactionIsComplete(REDACTED_VALUE, keys);
      assert !Redacted(JBool(true), keys);
      RedactedMarkerChanges(keys);
    }
  }

  lemma RedactedMarkerChanges(keys: set<Bytes>)
    ensures Redact(REDACTED_VALUE, keys) != REDACTED_VALUE
  {
    RedactionIsComplete(REDACTED_VALUE, keys);
    var ms := REDACTED_VALUE.members;
    assert ms[0].value == JBool(true) && !Redacted(JBool(true), keys);
  }
}
