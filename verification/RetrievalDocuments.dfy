/** Provenance of retrieved documents (genai/retrieval_documents.go, genai/retrieval.go). */
module RetrievalDocuments {
  import opened Bytes
  import opened Utf8
  import opened JsonText
  import opened JsonStrings
  import opened JsonTree
  import opened JsonDecode
  import opened JsonLength
  import opened Sanitize
  import opened Payload
  import opened PayloadWire
  import opened PayloadBounds
  import opened BoundedJson
  import opened Evidence
  import opened ReferencePolicy

  const VERSION: Bytes := "metry.document.version"
  const DIGEST: Bytes := "metry.document.digest"
  const SCORE: Bytes := "score"

  /** The JSON spelling of a finite float64, at most 25 bytes long. */
  type FloatText = s: Bytes | 0 < |s| <= 25 && ValidNumber(s) witness "0"

  datatype Relevance = Absent | NotFinite | Finite(text: FloatText)

  datatype Document = Document(id: Bytes, version: Bytes, digest: Bytes, relevance: Relevance)

  /** The wire form of a document: empty references and an absent score are omitted. */
  datatype Wire = Wire(id: Bytes, version: Bytes, digest: Bytes, score: Option<FloatText>)

  predicate Reference(s: Bytes) { |s| <= MAX_REFERENCE && Valid(s) }

  function ScoreValue(w: Wire): Json { if w.score.Some? then JNum(w.score.value) else JNull }

  function WireFields(w: Wire): seq<Member>
  {
    Optional(ID, w.id != [], JStr(w.id))
    + Optional(VERSION, w.version != [], JStr(w.version))
    + Optional(DIGEST, w.digest != [], JStr(w.digest))
    + Optional(SCORE, w.score.Some?, ScoreValue(w))
  }

  function WiresJson(ws: seq<Wire>): (r: seq<Json>)
    ensures |r| == |ws|
  {
    if ws == [] then [] else [JObj(WireFields(ws[0]))] + WiresJson(ws[1..])
  }

  function WireOf(d: Document): Wire
    requires d.relevance != NotFinite
  {
    Wire(d.id, d.version, d.digest, if d.relevance.Finite? then Some(d.relevance.text) else None)
  }

  predicate DocumentAccepted(d: Document)
  {
    Reference(d.id) && Reference(d.version) && Reference(d.digest) && d.relevance != NotFinite
  }

  predicate DocumentsAccepted(docs: seq<Document>)
  {
    forall i :: 0 <= i < |docs| ==> DocumentAccepted(docs[i])
  }

  function WiresOf(docs: seq<Document>): (r: seq<Wire>)
    requires DocumentsAccepted(docs)
    ensures |r| == |docs|
  {
    seq(|docs|, i requires 0 <= i < |docs| => WireOf(docs[i]))
  }

  /** The documents of a result, when all of them and their encoding are within bounds. */
  function Prepared(returned: int, docs: seq<Document>): Option<seq<Wire>>
  {
    if returned < 0 || |docs| > MAX_NODES || !DocumentsAccepted(docs) then None
    else if ChannelDecodes(JArr(WiresJson(WiresOf(docs)))) then Some(WiresOf(docs))
    else None
  }

  method PrepareRetrievalDocuments(returned: int, docs: seq<Document>) returns (r: Option<array<Wire>>)
    ensures r.Some? <==> Prepared(returned, docs).Some?
    ensures r.Some? ==> fresh(r.value) && r.value[..] == Prepared(returned, docs).value
  {
    hide ChannelDecodes, Valid;
    if returned < 0 || |docs| > MAX_NODES {
      return None;
    }
    var wires := new Wire[|docs|](i => Wire("", "", "", None));
    var i := 0;
    while i < |docs|
      invariant 0 <= i <= |docs|
      invariant forall j :: 0 <= j < i ==> DocumentAccepted(docs[j]) && wires[j] == WireOf(docs[j])
    {
      var d := docs[i];
      if !Reference(d.id) || !Reference(d.version) || !Reference(d.digest) {
        assert !DocumentAccepted(docs[i]);
        return None;
      }
      if d.relevance == NotFinite {
        assert !DocumentAccepted(docs[i]);
        return None;
      }
      wires[i] := WireOf(d);
      i := i + 1;
    }
    assert wires[..] == WiresOf(docs);
    var rule := Encodes(JArr(WiresJson(wires[..])));
    if rule.Some? {
      return None;
    }
    return Some(wires);
  }

  function ProtectWire(policy: Policy, hash: Hash, w: Wire): Wire
  {
    Wire(ReferenceLabel(policy, hash, w.id), ReferenceLabel(policy, hash, w.version),
         ReferenceLabel(policy, hash, w.digest), w.score)
  }

  function ProtectWires(policy: Policy, hash: Hash, ws: seq<Wire>): (r: seq<Wire>)
    ensures |r| == |ws|
    ensures forall i :: 0 <= i < |ws| ==> r[i] == ProtectWire(policy, hash, ws[i])
  {
    seq(|ws|, i requires 0 <= i < |ws| => ProtectWire(policy, hash, ws[i]))
  }

  method ProtectRetrievalDocuments(documents: array<Wire>, policy: Policy, hash: Hash)
    modifies documents
    ensures documents[..] == ProtectWires(policy, hash, old(documents[..]))
  {
    hide ReferenceLabel;
    var i := 0;
    while i < documents.Length
      invariant 0 <= i <= documents.Length
      invariant forall j :: 0 <= j < i ==> documents[j] == ProtectWire(policy, hash, old(documents[j]))
      invariant forall j :: i <= j < documents.Length ==> documents[j] == old(documents[j])
    {
      documents[i] := ProtectWire(policy, hash, documents[i]);
      i := i + 1;
    }
    assert documents[..] == ProtectWires(policy, hash, old(documents[..]));
  }

  // ----- protecting stays within the bounds

  lemma DocumentKeys()
    ensures forall key :: key in {ID, VERSION, DIGEST, SCORE} ==> Valid(key) && |Escape(key, true)| <= 28
    ensures ID != VERSION && ID != DIGEST && ID != SCORE
    ensures VERSION != DIGEST && VERSION != SCORE && DIGEST != SCORE
  {
    hide Valid, Escape;
    forall key | key in {ID, VERSION, DIGEST, SCORE}
      ensures Valid(key) && |Escape(key, true)| <= 28
    {
      DocumentKey(key);
    }
    assert |ID| == 2 && |SCORE| == 5 && |DIGEST| == 21 && |VERSION| == 22;
  }

  lemma DocumentKey(key: Bytes)
    requires key in {ID, VERSION, DIGEST, SCORE}
    ensures Valid(key) && |Escape(key, true)| <= 28
  {
    hide Valid, Escape;
    EscapePlain(key, true);
  }

  lemma DistinctConcat(a: seq<Member>, b: seq<Member>, ka: set<Bytes>, kb: set<Bytes>)
    requires DistinctKeys(a) && DistinctKeys(b) && KeysWithin(a, ka) && KeysWithin(b, kb) && ka !! kb
    ensures DistinctKeys(a + b) && KeysWithin(a + b, ka + kb)
  {
    var all := a + b;
    forall i, j | 0 <= i < j < |all|
      ensures all[i].key != all[j].key
    {
      if j < |a| {
        assert a[i].key != a[j].key;
      } else if i >= |a| {
        assert b[i - |a|].key != b[j - |a|].key;
      } else {
        assert a[i].key in ka && b[j - |a|].key in kb;
      }
    }
  }

  /** One optional field with its replacement, and what both read as. */
  ghost predicate FieldShrinks(ms': seq<Member>, ms: seq<Member>, key: Bytes)
  {
    && MarshalsMembers(ms) && MembersShrink(true, ms', ms)
    && DistinctKeys(ReadMembers(ms)) && KeysWithin(ReadMembers(ms), {key})
  }

  lemma OptionalShrinks(key: Bytes, present: bool, v': Json, v: Json)
    requires key in {ID, VERSION, DIGEST, SCORE}
    requires present ==> Marshals(v) && Shrinks(true, v', v) && Length(v', true) + 1 <= 74 * Nodes(ReadValue(v))
    ensures FieldShrinks(Optional(key, present, v'), Optional(key, present, v), key)
  {
    hide MembersShrink, Shrinks, Marshals, Length, Nodes, ReadValue, Valid, Escape;
    EmptyShrinks(true);
    if present {
      DocumentKeys();
      MemberShrinks(true, key, v', v);
    }
  }

  lemma SumShrinks(a': seq<Member>, a: seq<Member>, b': seq<Member>, b: seq<Member>, ka: set<Bytes>, kb: set<Bytes>)
    requires MarshalsMembers(a) && MembersShrink(true, a', a) && MarshalsMembers(b) && MembersShrink(true, b', b)
    requires DistinctKeys(ReadMembers(a)) && KeysWithin(ReadMembers(a), ka)
    requires DistinctKeys(ReadMembers(b)) && KeysWithin(ReadMembers(b), kb) && ka !! kb
    ensures MarshalsMembers(a + b) && MembersShrink(true, a' + b', a + b)
    ensures DistinctKeys(ReadMembers(a + b)) && KeysWithin(ReadMembers(a + b), ka + kb)
  {
    hide MembersShrink, MarshalsMembers, ReadMembers, DistinctKeys, KeysWithin;
    MembersShrinkConcat(true, a', a, b', b);
    DistinctConcat(ReadMembers(a), ReadMembers(b), ka, kb);
  }

  /** A protected reference in place of a reference. */
  lemma ReferenceShrinks(policy: Policy, hash: Hash, s: Bytes)
    requires !policy.RawPolicy?
    ensures var s' := ReferenceLabel(policy, hash, s);
      && (s' == [] <==> s == []) && Shrinks(true, JStr(s'), JStr(s))
      && Length(JStr(s'), true) + 1 <= 74 * Nodes(ReadValue(JStr(s)))
  {
    FingerprintPlain(hash, s);
    StringShrinks(true, ReferenceLabel(policy, hash, s), s);
  }

  lemma ScoreShrinks(text: FloatText)
    ensures Marshals(JNum(text)) && Shrinks(true, JNum(text), JNum(text))
    ensures Length(JNum(text), true) + 1 <= 74 * Nodes(ReadValue(JNum(text)))
  {
  }

  lemma WireShrinks(policy: Policy, hash: Hash, w: Wire)
    requires !policy.RawPolicy?
    ensures var w' := ProtectWire(policy, hash, w);
      Marshals(JObj(WireFields(w))) && Shrinks(true, JObj(WireFields(w')), JObj(WireFields(w)))
  {
    hide MembersShrink, MarshalsMembers, ReadMembers, DistinctKeys, KeysWithin, Shrinks, Length, Nodes, ReadValue,
         Marshals, ReferenceLabel, Optional;
    var w' := ProtectWire(policy, hash, w);
    ReferenceShrinks(policy, hash, w.id);
    ReferenceShrinks(policy, hash, w.version);
    ReferenceShrinks(policy, hash, w.digest);
    if w.score.Some? {
      ScoreShrinks(w.score.value);
    }
    StringsMarshal(w);
    OptionalShrinks(ID, w.id != [], JStr(w'.id), JStr(w.id));
    OptionalShrinks(VERSION, w.version != [], JStr(w'.version), JStr(w.version));
    OptionalShrinks(DIGEST, w.digest != [], JStr(w'.digest), JStr(w.digest));
    OptionalShrinks(SCORE, w.score.Some?, ScoreValue(w'), ScoreValue(w));
    DocumentKeys();
    var a1, b1 := Optional(ID, w.id != [], JStr(w.id)), Optional(ID, w'.id != [], JStr(w'.id));
    var a2, b2 := Optional(VERSION, w.version != [], JStr(w.version)),
      Optional(VERSION, w'.version != [], JStr(w'.version));
    var a3, b3 := Optional(DIGEST, w.digest != [], JStr(w.digest)), Optional(DIGEST, w'.digest != [], JStr(w'.digest));
    var a4, b4 := Optional(SCORE, w.score.Some?, ScoreValue(w)), Optional(SCORE, w'.score.Some?, ScoreValue(w'));
    SumShrinks(b1, a1, b2, a2, {ID}, {VERSION});
    SumShrinks(b1 + b2, a1 + a2, b3, a3, {ID} + {VERSION}, {DIGEST});
    SumShrinks(b1 + b2 + b3, a1 + a2 + a3, b4, a4, {ID} + {VERSION} + {DIGEST}, {SCORE});
    ObjectShrinks(true, WireFields(w'), WireFields(w));
  }

  lemma StringsMarshal(w: Wire)
    ensures Marshals(JStr(w.id)) && Marshals(JStr(w.version)) && Marshals(JStr(w.digest))
  {
  }

  lemma {:induction false} WiresShrink(policy: Policy, hash: Hash, ws: seq<Wire>)
    requires !policy.RawPolicy?
    ensures MarshalsItems(WiresJson(ws))
    ensures ItemsShrink(true, WiresJson(ProtectWires(policy, hash, ws)), WiresJson(ws))
  {
    hide Shrinks, ItemsShrink, ProtectWire, WireFields, Marshals, MarshalsItems;
    if ws != [] {
      WireShrinks(policy, hash, ws[0]);
      WiresShrink(policy, hash, ws[1..]);
      var ws' := ProtectWires(policy, hash, ws);
      assert ws'[1..] == ProtectWires(policy, hash, ws[1..]);
      ItemsShrinkCons(true, JObj(WireFields(ws'[0])), JObj(WireFields(ws[0])), WiresJson(ws'[1..]), WiresJson(ws[1..]));
    } else {
      NoItemsShrink(true);
    }
  }

  lemma RawWires(hash: Hash, ws: seq<Wire>)
    requires forall i :: 0 <= i < |ws| ==>
               |ws[i].id| <= MAX_REFERENCE && |ws[i].version| <= MAX_REFERENCE && |ws[i].digest| <= MAX_REFERENCE
    ensures ProtectWires(RawPolicy, hash, ws) == ws
  {
    forall i | 0 <= i < |ws|
      ensures ProtectWires(RawPolicy, hash, ws)[i] == ws[i]
    {
    }
  }

  /** Once the documents of a result are accepted, encoding their protected form cannot
      fail, so finishing the recording cannot fail there either. */
  lemma ProtectedDocumentsEncode(returned: int, docs: seq<Document>, policy: Policy, hash: Hash, limit: int)
    requires |MARKER| <= limit && Prepared(returned, docs).Some?
    ensures BoundedArray(JArr(WiresJson(ProtectWires(policy, hash, Prepared(returned, docs).value))), limit).Ok?
  {
    hide WiresJson, ItemsShrink, ReferenceLabel, Text, Decode, Valid;
    var ws := Prepared(returned, docs).value;
    if policy.RawPolicy? {
      forall i | 0 <= i < |ws|
        ensures |ws[i].id| <= MAX_REFERENCE && |ws[i].version| <= MAX_REFERENCE && |ws[i].digest| <= MAX_REFERENCE
      {
        assert DocumentAccepted(docs[i]);
      }
      RawWires(hash, ws);
    } else {
      WiresShrink(policy, hash, ws);
      ChannelShrinks(true, WiresJson(ProtectWires(policy, hash, ws)), WiresJson(ws));
    }
    ArrayEncodes(WiresJson(ProtectWires(policy, hash, ws)), limit);
  }

  lemma ArrayEncodes(js: seq<Json>, limit: int)
    requires |MARKER| <= limit && ChannelDecodes(JArr(js))
    ensures BoundedArray(JArr(js), limit).Ok?
  {
    hide Text, Decode, LongestArray;
    DecodeOfText(JArr(js), true);
  }

  // ----- the checker's view

  const DOCUMENT_KEYS: set<Bytes> := {ID, VERSION, DIGEST, SCORE}

  /** validRetrievalDocumentsEvidence for one document. */
  predicate DocumentEvidence(v: Json)
  {
    v.JObj? &&
    forall i :: 0 <= i < |v.members| ==>
      && v.members[i].key in DOCUMENT_KEYS
      && (if v.members[i].key == SCORE then v.members[i].value.JNum? || v.members[i].value.JNull?
          else v.members[i].value.JStr? || v.members[i].value.JNull?)
  }

  predicate DocumentsEvidence(items: seq<Json>)
  {
    forall i :: 0 <= i < |items| ==> DocumentEvidence(items[i])
  }

  predicate ValidRetrievalEvidence(contract: Contract, text: Bytes)
  {
    && |text| <= contract.limit && Valid(text) && Decode(text).Ok?
    && text != [] && text[0] == '[' && Decode(text).value.JArr?
    && DocumentsEvidence(Decode(text).value.items)
  }

  ghost predicate DocumentMember(m: Member)
  {
    m.key in DOCUMENT_KEYS && if m.key == SCORE then m.value.JNum? else m.value.JStr?
  }

  ghost predicate DocumentMembers(ms: seq<Member>) { forall i :: 0 <= i < |ms| ==> DocumentMember(ms[i]) }

  lemma {:induction false} InsertKeepsMembers(ms: seq<Member>, m: Member)
    requires DocumentMembers(ms) && DocumentMember(m)
    ensures DocumentMembers(Insert(ms, m))
  {
    hide DocumentMember, Less;
    if ms != [] {
      assert DocumentMembers(ms[1..]) by {
        assert forall i :: 0 <= i < |ms[1..]| ==> ms[1..][i] == ms[i + 1];
      }
      InsertKeepsMembers(ms[1..], m);
    }
  }

  lemma {:induction false} InsertAllKeepsMembers(kept: seq<Member>, ms: seq<Member>)
    requires DocumentMembers(kept) && DocumentMembers(ms)
    ensures DocumentMembers(InsertAll(kept, ms))
    decreases |ms|
  {
    hide DocumentMember, Insert;
    if ms != [] {
      InsertKeepsMembers(kept, ms[0]);
      assert forall i :: 0 <= i < |ms[1..]| ==> ms[1..][i] == ms[i + 1];
      InsertAllKeepsMembers(Insert(kept, ms[0]), ms[1..]);
    }
  }

  lemma OptionalReads(key: Bytes, present: bool, v: Json)
    requires key in DOCUMENT_KEYS && Marshals(v)
    requires present ==> if key == SCORE then v.JNum? else v.JStr?
    ensures var ms := Optional(key, present, v); MarshalsMembers(ms) && DocumentMembers(ReadMembers(ms))
  {
    hide Valid, Escape, Marshals;
    EmptyShrinks(true);
    if present {
      DocumentKeys();
      ReadOne(Member(key, v));
      ScalarReads(v);
    }
  }

  lemma ScalarReads(v: Json)
    requires Marshals(v) && (v.JNum? || v.JStr?)
    ensures v.JNum? ==> ReadValue(v).JNum?
    ensures v.JStr? ==> ReadValue(v).JStr?
  {
  }

  lemma MembersSum(a: seq<Member>, b: seq<Member>)
    requires MarshalsMembers(a) && MarshalsMembers(b) && DocumentMembers(ReadMembers(a))
      && DocumentMembers(ReadMembers(b))
    ensures MarshalsMembers(a + b) && DocumentMembers(ReadMembers(a + b))
  {
    hide MarshalsMembers, ReadMembers, DocumentMember;
    ReadConcat(a, b);
  }

  lemma WireAgrees(w: Wire)
    ensures Marshals(JObj(WireFields(w))) && DocumentEvidence(ReadValue(JObj(WireFields(w))))
  {
    hide MarshalsMembers, ReadMembers, DocumentMembers, Optional, InsertAll;
    StringsMarshal(w);
    OptionalReads(ID, w.id != [], JStr(w.id));
    OptionalReads(VERSION, w.version != [], JStr(w.version));
    OptionalReads(DIGEST, w.digest != [], JStr(w.digest));
    DocumentKeysDiffer();
    ScoreMarshals(w);
    OptionalReads(SCORE, w.score.Some?, ScoreValue(w));
    var a1 := Optional(ID, w.id != [], JStr(w.id));
    var a2 := Optional(VERSION, w.version != [], JStr(w.version));
    var a3 := Optional(DIGEST, w.digest != [], JStr(w.digest));
    var a4 := Optional(SCORE, w.score.Some?, ScoreValue(w));
    MembersSum(a1, a2);
    MembersSum(a1 + a2, a3);
    MembersSum(a1 + a2 + a3, a4);
    ReadObject(WireFields(w));
    NoMembers();
    InsertAllKeepsMembers([], ReadMembers(WireFields(w)));
    MembersAreEvidence(InsertAll([], ReadMembers(WireFields(w))));
  }

  lemma DocumentKeysDiffer()
    ensures ID != SCORE && VERSION != SCORE && DIGEST != SCORE
  {
  }

  lemma ScoreMarshals(w: Wire)
    ensures Marshals(ScoreValue(w)) && (w.score.Some? ==> ScoreValue(w).JNum?)
  {
  }

  lemma NoMembers()
    ensures DocumentMembers([])
  {
  }

  lemma MembersAreEvidence(ms: seq<Member>)
    requires DocumentMembers(ms)
    ensures DocumentEvidence(JObj(ms))
  {
    forall i | 0 <= i < |ms|
      ensures DocumentMember(ms[i])
    {
    }
  }

  lemma {:induction false} WiresAgree(ws: seq<Wire>)
    ensures MarshalsItems(WiresJson(ws)) && DocumentsEvidence(CanonItems(ResolveItems(WiresJson(ws))))
  {
    hide DocumentEvidence, WireFields, Marshals, Resolve, Canon;
    if ws != [] {
      WireAgrees(ws[0]);
      WiresAgree(ws[1..]);
      ItemsHead(JObj(WireFields(ws[0])), WiresJson(ws[1..]));
      var tail := CanonItems(ResolveItems(WiresJson(ws[1..])));
      var all := [ReadValue(JObj(WireFields(ws[0])))] + tail;
      assert CanonItems(ResolveItems(WiresJson(ws))) == all;
      forall i | 0 <= i < |all|
        ensures DocumentEvidence(all[i])
      {
        if i > 0 {
          assert all[i] == tail[i - 1];
        }
      }
    }
  }

  /** A recorded document list, truncated or not, is accepted by the checker. */
  lemma RetrievalSatisfiesChecker(contract: Contract, ws: seq<Wire>)
    requires |MARKER| <= contract.limit <= MAX_BYTES
    requires BoundedArray(JArr(WiresJson(ws)), contract.limit).Ok?
    requires BoundedArray(JArr(WiresJson(ws)), contract.limit).value.0 != []
    ensures ValidRetrievalEvidence(contract, BoundedArray(JArr(WiresJson(ws)), contract.limit).value.0)
  {
    hide Text, Decode, DocumentEvidence, BoundedArray, Valid, WiresJson;
    var js := WiresJson(ws);
    var text := BoundedArray(JArr(js), contract.limit).value.0;
    WiresAgree(ws);
    ArrayTruncation(JArr(js), contract.limit);
    ChannelItems(js);
    BoundedStarts(js, contract.limit);
    var items, kept := CanonItems(ResolveItems(js)), Decode(text).value.items;
    assert forall i :: 0 <= i < |kept| ==> kept[i] == items[i];
  }
}
