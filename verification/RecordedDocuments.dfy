/** What the recorded documents of a retrieval hold, told by the caller's documents field by field
    (genai/retrieval_documents.go, genai/retrieval.go). */
module RecordedDocuments {
  import opened Bytes
  import opened Utf8
  import opened JsonText
  import opened JsonStrings
  import opened JsonTree
  import opened JsonDecode
  import opened JsonLength
  import opened Sanitize
  import opened Payload
  import opened PayloadWire
  import opened PayloadBounds
  import opened BoundedJson
  import opened Evidence
  import opened ReferencePolicy
  import opened RetrievalDocuments
  import opened RecordedPayloads

  /** A reference as it is recorded: the caller's only under the raw policy, else its fingerprint. */
  function Recorded(policy: Policy, hash: Hash, s: Bytes): Json
  {
    JStr(if policy.RawPolicy? then s else "sha256:" + hash(s))
  }

  /** A document as the decoder reads it: the references it has and its score, in key order. */
  function DocumentObject(policy: Policy, hash: Hash, d: Document): Json
  {
    JObj(Optional("id", d.id != "", Recorded(policy, hash, d.id))
         + Optional("metry.document.digest", d.digest != "", Recorded(policy, hash, d.digest))
         + Optional("metry.document.version", d.version != "", Recorded(policy, hash, d.version))
         + Optional("score", d.relevance.Finite?, if d.relevance.Finite? then JNum(d.relevance.text) else JNull))
  }

  function DocumentObjects(policy: Policy, hash: Hash, docs: seq<Document>): (r: seq<Json>)
    ensures |r| == |docs|
  {
    seq(|docs|, i requires 0 <= i < |docs| => DocumentObject(policy, hash, docs[i]))
  }

  // ----- one wire document read back

  /** The fields of a wire document in key order. */
  function WireObject(w: Wire): Json
  {
    JObj(Optional(ID, w.id != [], JStr(w.id)) + Optional(DIGEST, w.digest != [], JStr(w.digest))
         + Optional(VERSION, w.version != [], JStr(w.version)) + Optional(SCORE, w.score.Some?, ScoreValue(w)))
  }

  predicate WireValid(w: Wire) { Valid(w.id) && Valid(w.version) && Valid(w.digest) }

  lemma DocumentKeysAscend()
    ensures Less(ID, DIGEST) && Less(DIGEST, VERSION) && Less(VERSION, SCORE)
  {
    assert DIGEST[..15] == "metry.document." && VERSION[..15] == "metry.document.";
    LessAfter("metry.document.", "digest", "version");
    assert "metry.document." + "digest" == DIGEST && "metry.document." + "version" == VERSION;
  }

  lemma {:induction false} LessAfter(head: Bytes, a: Bytes, b: Bytes)
    requires Less(a, b)
    ensures Less(head + a, head + b)
  {
    if head != [] {
      LessAfter(head[1..], a, b);
      assert (head + a)[1..] == head[1..] + a && (head + b)[1..] == head[1..] + b;
    } else {
      AddEmpty(a);
      AddEmpty(b);
    }
  }

  lemma WireObjectSorted(w: Wire)
    ensures Sorted(WireObject(w).members)
  {
    hide Less;
    DocumentKeysAscend();
    LessTransitive(ID, DIGEST, VERSION);
    LessTransitive(DIGEST, VERSION, SCORE);
    LessTransitive(ID, VERSION, SCORE);
  }

  lemma WireObjectLookup(w: Wire, key: Bytes)
    ensures Find(WireObject(w).members, key) == FieldOf(w, key)
  {
    hide Optional, Find;
    DocumentKeys();
    var a1, a2 := Optional(ID, w.id != [], JStr(w.id)), Optional(DIGEST, w.digest != [], JStr(w.digest));
    var a3, a4 := Optional(VERSION, w.version != [], JStr(w.version)), Optional(SCORE, w.score.Some?, ScoreValue(w));
    FindOptional(ID, w.id != [], JStr(w.id), key);
    FindOptional(DIGEST, w.digest != [], JStr(w.digest), key);
    FindOptional(VERSION, w.version != [], JStr(w.version), key);
    FindOptional(SCORE, w.score.Some?, ScoreValue(w), key);
    FindConcat(a1, a2, key);
    FindConcat(a1 + a2, a3, key);
    FindConcat(a1 + a2 + a3, a4, key);
  }

  function FieldOf(w: Wire, key: Bytes): Option<Json>
  {
    if key == ID && w.id != [] then Some(JStr(w.id))
    else if key == VERSION && w.version != [] then Some(JStr(w.version))
    else if key == DIGEST && w.digest != [] then Some(JStr(w.digest))
    else if key == SCORE && w.score.Some? then Some(ScoreValue(w))
    else None
  }

  lemma WireLookup(w: Wire, key: Bytes)
    ensures LastOf(WireFields(w), key) == FieldOf(w, key)
  {
    hide Optional, LastOf;
    DocumentKeys();
    var a1, a2 := Optional(ID, w.id != [], JStr(w.id)), Optional(VERSION, w.version != [], JStr(w.version));
    var a3, a4 := Optional(DIGEST, w.digest != [], JStr(w.digest)), Optional(SCORE, w.score.Some?, ScoreValue(w));
    LastOfOptional(ID, w.id != [], JStr(w.id), key);
    LastOfOptional(VERSION, w.version != [], JStr(w.version), key);
    LastOfOptional(DIGEST, w.digest != [], JStr(w.digest), key);
    LastOfOptional(SCORE, w.score.Some?, ScoreValue(w), key);
    LastOfConcat(a1, a2, key);
    LastOfConcat(a1 + a2, a3, key);
    LastOfConcat(a1 + a2 + a3, a4, key);
  }

  lemma ReadsSame(key: Bytes, present: bool, v: Json)
    requires key in {ID, VERSION, DIGEST, SCORE} && (present ==> Marshals(v) && ReadValue(v) == v)
    ensures var ms := Optional(key, present, v); MarshalsMembers(ms) && ReadMembers(ms) == ms
  {
    hide Valid, Escape, Marshals, ReadValue;
    EmptyShrinks(true);
    if present {
      DocumentKeys();
      ReadOne(Member(key, v));
    }
  }

  lemma TextReadsSame(s: Bytes)
    requires Valid(s)
    ensures Marshals(JStr(s)) && ReadValue(JStr(s)) == JStr(s)
  {
    CleanValid(s);
  }

  lemma ScoreReadsSame(w: Wire)
    ensures w.score.Some? ==> Marshals(ScoreValue(w)) && ReadValue(ScoreValue(w)) == ScoreValue(w)
  {
  }

  lemma FieldsReadSame(w: Wire)
    requires WireValid(w)
    ensures MarshalsMembers(WireFields(w)) && ReadMembers(WireFields(w)) == WireFields(w)
  {
    hide Valid, MarshalsMembers, ReadMembers, Optional, Marshals, ReadValue;
    var a1, a2 := Optional(ID, w.id != [], JStr(w.id)), Optional(VERSION, w.version != [], JStr(w.version));
    var a3, a4 := Optional(DIGEST, w.digest != [], JStr(w.digest)), Optional(SCORE, w.score.Some?, ScoreValue(w));
    TextReadsSame(w.id);
    TextReadsSame(w.version);
    TextReadsSame(w.digest);
    ScoreReadsSame(w);
    ReadsSame(ID, w.id != [], JStr(w.id));
    ReadsSame(VERSION, w.version != [], JStr(w.version));
    ReadsSame(DIGEST, w.digest != [], JStr(w.digest));
    ReadsSame(SCORE, w.score.Some?, ScoreValue(w));
    ReadSum(a1, a1, a2, a2);
    ReadSum(a1 + a2, a1 + a2, a3, a3);
    ReadSum(a1 + a2 + a3, a1 + a2 + a3, a4, a4);
  }

  lemma WireIsObject(w: Wire)
    requires WireValid(w)
    ensures Marshals(JObj(WireFields(w))) && ReadValue(JObj(WireFields(w))) == WireObject(w)
  {
    hide WireValid, MarshalsMembers, ReadMembers, WireFields, LastOf, Find, Less, InsertAll, FieldOf, Sorted, Optional;
    FieldsReadSame(w);
    ReadObject(WireFields(w));
    var read := InsertAll([], WireFields(w));
    NothingFound();
    InsertAllIsMap([], WireFields(w));
    WireObjectSorted(w);
    forall key
      ensures Find(read, key) == Find(WireObject(w).members, key)
    {
      WireLookup(w, key);
      WireObjectLookup(w, key);
    }
    SortedSame(read, WireObject(w).members);
  }

  lemma {:induction false} WiresAreObjects(ws: seq<Wire>)
    requires forall i :: 0 <= i < |ws| ==> WireValid(ws[i])
    ensures MarshalsItems(WiresJson(ws))
    ensures CanonItems(ResolveItems(WiresJson(ws))) == seq(|ws|, i requires 0 <= i < |ws| => WireObject(ws[i]))
  {
    hide WireValid, Marshals, Resolve, Canon, WireFields, WireObject;
    if ws != [] {
      WireIsObject(ws[0]);
      assert forall i :: 0 <= i < |ws[1..]| ==> ws[1..][i] == ws[i + 1];
      WiresAreObjects(ws[1..]);
      ItemsHead(JObj(WireFields(ws[0])), WiresJson(ws[1..]));
      var all := seq(|ws|, i requires 0 <= i < |ws| => WireObject(ws[i]));
      assert all == [WireObject(ws[0])] + seq(|ws[1..]|, i requires 0 <= i < |ws[1..]| => WireObject(ws[1..][i]));
    }
  }

  // ----- protected documents

  lemma ProtectedDocument(policy: Policy, hash: Hash, d: Document)
    requires DocumentAccepted(d)
    ensures var w := ProtectWire(policy, hash, WireOf(d));
      WireValid(w) && WireObject(w) == DocumentObject(policy, hash, d)
  {
    hide Valid;
    ReferenceRecorded(policy, hash, d.id);
    ReferenceRecorded(policy, hash, d.version);
    ReferenceRecorded(policy, hash, d.digest);
  }

  lemma ReferenceRecorded(policy: Policy, hash: Hash, s: Bytes)
    requires Reference(s)
    ensures var r := ReferenceLabel(policy, hash, s);
      && Valid(r) && (r == "" <==> s == "") && (s != "" ==> JStr(r) == Recorded(policy, hash, s))
  {
    hide Valid;
    EmptyIsValid();
    FingerprintIsValid(hash, s);
  }

  lemma EmptyIsValid()
    ensures Valid([])
  {
  }

  lemma FingerprintIsValid(hash: Hash, s: Bytes)
    ensures Valid(Fingerprint(hash, s))
  {
    hide Valid;
    FingerprintPlain(hash, s);
    EscapePlainValid(Fingerprint(hash, s));
  }

  lemma EscapePlainValid(s: Bytes)
    requires PlainText(s)
    ensures Valid(s)
  {
    hide Escape;
    EscapePlain(s, true);
  }

  /** The documents of an accepted result, protected, written and bounded: the longest prefix of
      their objects that fits. */
  lemma DocumentsAreRecorded(policy: Policy, hash: Hash, returned: int, docs: seq<Document>, limit: int)
    requires |MARKER| <= limit <= MAX_BYTES && Prepared(returned, docs).Some? && docs != []
    ensures var value := JArr(WiresJson(ProtectWires(policy, hash, Prepared(returned, docs).value)));
      var objects := DocumentObjects(policy, hash, docs);
      && BoundedArray(value, limit).Ok?
      && var (text, truncated) := BoundedArray(value, limit).value;
         && text != [] && HoldsLongest(text, objects, limit)
         && (truncated <==> |Decode(text).value.items| < |objects|)
  {
    hide WireObject, DocumentObject, DocumentAccepted, ProtectWire, WireOf, WireFields, BoundedArray, HoldsLongest,
         Decode, ChannelDecodes, WireValid, MarshalsItems;
    var wires := Prepared(returned, docs).value;
    var protected := ProtectWires(policy, hash, wires);
    ProtectedDocumentsEncode(returned, docs, policy, hash, limit);
    forall i | 0 <= i < |docs|
      ensures WireValid(protected[i]) && WireObject(protected[i]) == DocumentObject(policy, hash, docs[i])
    {
      assert DocumentAccepted(docs[i]);
      ProtectedDocument(policy, hash, docs[i]);
    }
    WiresAreObjects(protected);
    assert seq(|protected|, i requires 0 <= i < |protected| => WireObject(protected[i]))
        == DocumentObjects(policy, hash, docs);
    BoundedObjects(WiresJson(protected), DocumentObjects(policy, hash, docs), limit);
  }
}
